/** Values shared by every part of the chunk store model. */
module Types {

  newtype byte = b: int | 0 <= b < 256
  type Bytes = seq<byte>

  /** A reference count that is kept in the table; zero entries are removed. */
  type Pos = n: int | n > 0 witness 1

  datatype Option<+T> = None | Some(value: T)

  /** The error classes a caller can tell apart. `Fault` is a backend call that
      failed, `Corrupt` a document that cannot be decoded or is missing. */
  datatype Error =
    | Fault | Corrupt | NotFound | InvalidArgument | DigestMismatch | CodecFailed | Io

  /** What the imperative operations return. */
  datatype Result<+T> = Ok(value: T) | Err(error: Error) {
    predicate IsFailure() { Err? }

    function PropagateFailure<U>(): Result<U>
      requires Err?
    {
      Err(error)
    }

    function Extract(): T
      requires Ok?
    {
      value
    }
  }

  /** What a specification function returns: the state reached, together with
      a value or with the error that stopped the operation in that state. */
  datatype Out<S, T> = Done(s: S, v: T) | Fail(s: S, e: Error) {
    predicate IsFailure() { Fail? }

    function PropagateFailure<U>(): Out<S, U>
      requires Fail?
    {
      Fail(s, e)
    }

    function Extract(): (S, T)
      requires Done?
    {
      (s, v)
    }
  }

  /** Pairs the state an imperative operation left behind with its result. */
  function Outcome<S, T>(s: S, r: Result<T>): Out<S, T> {
    match r
    case Ok(v) => Done(s, v)
    case Err(e) => Fail(s, e)
  }

  /** A metadata document, decoded. A refcount document is either a bare count
      (the legacy form) or a count with the payload size. */
  datatype Doc =
    | ManifestDoc(digests: seq<string>, fileBytes: nat)
    | LegacyCount(legacy: nat)
    | CountSize(count: nat, size: nat)
    | List(items: seq<string>)
    | Garbage

  datatype FileRec = FileRec(digests: seq<string>, fileBytes: nat)

  datatype ChunkRef = ChunkRef(count: Pos, size: nat)

  datatype Totals = Totals(total: nat, stored: nat, gc: nat)

  /** No two positions of the list hold the same string. */
  ghost predicate NoDup(xs: seq<string>) {
    forall i, j :: 0 <= i < j < |xs| ==> xs[i] != xs[j]
  }

  /** `order` lists the members of `keys`, each once: one iteration order of a
      hash table with those keys. */
  ghost predicate IsListing(order: seq<string>, keys: set<string>) {
    && NoDup(order)
    && (forall x :: x in order <==> x in keys)
  }

  function Concat(blocks: seq<Bytes>): Bytes {
    if blocks == [] then [] else blocks[0] + Concat(blocks[1..])
  }

  lemma {:induction false} ConcatAppend(a: seq<Bytes>, b: seq<Bytes>)
    ensures Concat(a + b) == Concat(a) + Concat(b)
  {
    if a == [] {
      assert a + b == b;
    } else {
      assert (a + b)[0] == a[0] && (a + b)[1..] == a[1..] + b;
      ConcatAppend(a[1..], b);
    }
  }
}
