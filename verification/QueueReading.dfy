/** The queue reader of python/python_src/chunkstore/async_store.py. */
module QueueReading {
  import opened Types
  import opened Hashing
  import opened StoreSpec
  import opened Streaming

  const READ_BUFFER: nat := 64 * 1024

  /** Blocks still in the queue (None ends the input), the buffered bytes, and
      whether the end has been seen. */
  datatype Queue = Queue(items: seq<Option<Bytes>>, buf: Bytes, eof: bool)

  /** The producer will put, or has put, the end marker. */
  predicate Terminated(q: Queue) {
    q.eof || None in q.items
  }

  /** The blocks before the end marker. */
  function Pending(items: seq<Option<Bytes>>): Bytes {
    if items == [] || items[0].None? then [] else items[0].value + Pending(items[1..])
  }

  /** Everything the reader has not delivered yet. */
  function Undelivered(q: Queue): Bytes {
    q.buf + if q.eof then [] else Pending(q.items)
  }

  /** The loop of `read`. */
  function Fill(q: Queue, want: nat): (r: Queue)
    requires Terminated(q)
    decreases |q.items|
  {
    if q.eof || |q.buf| >= want then q
    else if q.items[0].None? then q.(items := q.items[1..], eof := true)
    else Fill(Queue(q.items[1..], q.buf + q.items[0].value, false), want)
  }

  function Want(n: int): nat {
    if n > 0 then n else READ_BUFFER
  }

  /** `read(n)`: the bytes returned, and the reader afterwards. */
  function ReadQueue(q: Queue, n: int): (Queue, Bytes)
    requires Terminated(q)
  {
    if n == 0 then (q, []) else
    var r := Fill(q, Want(n));
    if n < 0 then (r.(buf := []), r.buf)
    else if |r.buf| <= n then (r.(buf := []), r.buf)
    else (r.(buf := r.buf[n..]), r.buf[..n])
  }

  lemma {:induction false} FillFacts(q: Queue, want: nat)
    requires Terminated(q) && want > 0
    ensures var r := Fill(q, want);
            && Terminated(r) && Undelivered(r) == Undelivered(q)
            && (r.eof || |r.buf| >= want)
    decreases |q.items|
  {
    if q.eof || |q.buf| >= want {
    } else if q.items[0].None? {
      assert Undelivered(q) == q.buf + [] == q.buf;
    } else {
      assert q.items == [q.items[0]] + q.items[1..];
      var next := Queue(q.items[1..], q.buf + q.items[0].value, false);
      FillFacts(next, want);
      assert Undelivered(next) == q.buf + (q.items[0].value + Pending(q.items[1..]));
    }
  }

  /** A read delivers the next bytes, at most as many as asked for; it delivers
      none exactly when nothing is left. Empty blocks make no difference. */
  lemma ReadDelivers(q: Queue, n: int)
    requires Terminated(q) && n != 0
    ensures var (r, out) := ReadQueue(q, n);
            && Terminated(r)
            && out + Undelivered(r) == Undelivered(q)
            && (out == [] <==> Undelivered(q) == [])
            && (n > 0 ==> |out| <= n)
  {
    FillFacts(q, Want(n));
    hide Fill, Pending, Terminated;
    var f := Fill(q, Want(n));
    var (r, out) := ReadQueue(q, n);
    assert out + r.buf == f.buf;
    assert out + Undelivered(r) == f.buf + if f.eof then [] else Pending(f.items);
  }

  /** The first blocks of the queue. */
  function FirstBlocks(items: seq<Option<Bytes>>, j: nat): Bytes
    requires j <= |items| && forall i :: 0 <= i < j ==> items[i].Some?
  {
    if j == 0 then [] else FirstBlocks(items, j - 1) + items[j - 1].value
  }

  lemma {:induction false} FirstBlocksShift(items: seq<Option<Bytes>>, j: nat)
    requires 0 < j <= |items| && forall i :: 0 <= i < j ==> items[i].Some?
    ensures FirstBlocks(items, j) == items[0].value + FirstBlocks(items[1..], j - 1)
  {
    if j > 1 {
      FirstBlocksShift(items, j - 1);
      assert items[1..][j - 2] == items[j - 1];
    }
  }

  /** `q` takes the fewest blocks, `j`, with which `want` bytes are buffered, or
      all there are up to the end marker, and that too. */
  ghost predicate Takes(q: Queue, want: nat, r: Queue, j: nat) {
    && j <= |q.items| && (forall i :: 0 <= i < j ==> q.items[i].Some?)
    && r.buf == q.buf + FirstBlocks(q.items, j)
    && (forall i :: 0 <= i < j ==> !q.eof && |q.buf + FirstBlocks(q.items, i)| < want)
    && (if q.eof || |r.buf| >= want then r.items == q.items[j..] && r.eof == q.eof
        else j < |q.items| && q.items[j].None? && r.items == q.items[j + 1..] && r.eof)
  }

  lemma NextBlocks(q: Queue, i: nat)
    requires 0 <= i < |q.items| && forall h :: 0 <= h <= i ==> q.items[h].Some?
    ensures forall h :: 0 <= h < i ==> q.items[1..][h].Some?
    ensures q.buf + FirstBlocks(q.items, i + 1) == (q.buf + q.items[0].value) + FirstBlocks(q.items[1..], i)
  {
    assert forall h :: 0 <= h < i ==> q.items[1..][h] == q.items[h + 1];
    FirstBlocksShift(q.items, i + 1);
  }

  lemma TakesOneMore(q: Queue, want: nat, r: Queue, k: nat)
    requires !q.eof && |q.buf| < want && q.items != [] && q.items[0].Some?
    requires Takes(Queue(q.items[1..], q.buf + q.items[0].value, false), want, r, k)
    ensures Takes(q, want, r, k + 1)
  {
    var next := Queue(q.items[1..], q.buf + q.items[0].value, false);
    forall h | 0 <= h < k + 1 ensures q.items[h].Some? {
      assert h > 0 ==> next.items[h - 1] == q.items[h];
    }
    NextBlocks(q, k);
    forall i | 0 <= i < k + 1 ensures |q.buf + FirstBlocks(q.items, i)| < want {
      if i > 0 {
        NextBlocks(q, i - 1);
      }
    }
    hide FirstBlocks;
    assert next.items[k..] == q.items[k + 1..];
    assert k < |next.items| ==> next.items[k] == q.items[k + 1] && next.items[k + 1..] == q.items[k + 2..];
  }

  lemma {:induction false} FillTakes(q: Queue, want: nat) returns (j: nat)
    requires Terminated(q)
    ensures Takes(q, want, Fill(q, want), j)
    decreases |q.items|
  {
    if q.eof || |q.buf| >= want || q.items[0].None? {
      j := 0;
      assert q.buf + FirstBlocks(q.items, 0) == q.buf;
    } else {
      var next := Queue(q.items[1..], q.buf + q.items[0].value, false);
      assert q.items == [q.items[0]] + q.items[1..];
      hide Takes;
      var k := FillTakes(next, want);
      TakesOneMore(q, want, Fill(next, want), k);
      j := k + 1;
    }
  }

  /** How much a read delivers. Asked for n bytes it delivers n, or all there are
      up to the end marker; asked for no number, all that it has buffered and the
      fewest whole blocks that make 64 KiB of it; asked for none, none. It takes
      no more blocks from the queue than that needs. */
  lemma ReadAmount(q: Queue, n: int) returns (j: nat)
    requires Terminated(q)
    ensures var (r, out) := ReadQueue(q, n);
            && (n == 0 ==> out == [] && r == q && j == 0)
            && (n > 0 ==>
                  && |out| == (if n < |Undelivered(q)| then n else |Undelivered(q)|)
                  && out == Undelivered(q)[..|out|]
                  && Takes(q, n, r.(buf := out + r.buf), j))
            && (n < 0 ==> r.buf == [] && Takes(q, 65536, r.(buf := out), j))
  {
    var (r, out) := ReadQueue(q, n);
    if n == 0 {
      j := 0;
    } else {
      ReadDelivers(q, n);
      FillFacts(q, Want(n));
      j := FillTakes(q, Want(n));
      var f := Fill(q, Want(n));
      hide Fill, Takes, Pending;
      assert n < 0 ==> Takes(q, 65536, r.(buf := out), j) by {
        assert n < 0 ==> f == r.(buf := out);
      }
      if n > 0 {
        assert out + r.buf == f.buf;
        assert f == r.(buf := out + r.buf);
        assert Undelivered(q) == out + Undelivered(r);
      }
    }
  }

  /** Reading again and again, with the sizes given. */
  function ReadAll(q: Queue, sizes: seq<int>): (Queue, Bytes)
    requires Terminated(q) && forall i :: 0 <= i < |sizes| ==> sizes[i] != 0
    decreases |sizes|
  {
    if sizes == [] then (q, []) else
    ReadDelivers(q, sizes[0]);
    var (q1, out) := ReadQueue(q, sizes[0]);
    var (q2, rest) := ReadAll(q1, sizes[1..]);
    (q2, out + rest)
  }

  /** For every sequence of queued blocks and every sequence of read sizes, the
      reads concatenate to a prefix of the blocks, and what is missing of it is
      still to be delivered. */
  lemma {:induction false} ReadsConcatenate(q: Queue, sizes: seq<int>)
    requires Terminated(q) && forall i :: 0 <= i < |sizes| ==> sizes[i] != 0
    ensures var (r, out) := ReadAll(q, sizes);
            Terminated(r) && out + Undelivered(r) == Undelivered(q)
    decreases |sizes|
  {
    if sizes == [] {
      assert [] + Undelivered(q) == Undelivered(q);
    } else {
      ReadDelivers(q, sizes[0]);
      var (q1, out) := ReadQueue(q, sizes[0]);
      ReadsConcatenate(q1, sizes[1..]);
      var (q2, rest) := ReadAll(q1, sizes[1..]);
      assert (out + rest) + Undelivered(q2) == out + (rest + Undelivered(q2));
    }
  }

  /** What the read loop of the store sees: reads of one buffer length, until
      one delivers nothing. */
  function QueueScript(q: Queue): seq<ReadEvent>
    requires Terminated(q)
    decreases |Undelivered(q)|
  {
    ReadDelivers(q, READ_BUFFER);
    var (r, out) := ReadQueue(q, READ_BUFFER);
    if out == [] then [Block([])]
    else
      assert |out| + |Undelivered(r)| == |Undelivered(q)|;
      [Block(out)] + QueueScript(r)
  }

  lemma {:induction false} QueueScriptDelivers(q: Queue)
    requires Terminated(q)
    ensures !Breaks(QueueScript(q)) && Delivered(QueueScript(q)) == Undelivered(q)
    decreases |Undelivered(q)|
  {
    ReadDelivers(q, READ_BUFFER);
    var (r, out) := ReadQueue(q, READ_BUFFER);
    if out != [] {
      assert |out| + |Undelivered(r)| == |Undelivered(q)|;
      QueueScriptDelivers(r);
      assert QueueScript(q)[1..] == QueueScript(r);
    }
  }

  /** What the producer puts for these blocks. */
  function Queued(blocks: seq<Bytes>): (items: seq<Option<Bytes>>)
    ensures None in items
  {
    if blocks == [] then [None] else [Some(blocks[0])] + Queued(blocks[1..])
  }

  lemma {:induction false} QueuedPending(blocks: seq<Bytes>)
    ensures Pending(Queued(blocks)) == Concat(blocks)
  {
    if blocks != [] {
      QueuedPending(blocks[1..]);
      assert Queued(blocks)[1..] == Queued(blocks[1..]);
    }
  }

  /** `ingest_aiter` stores exactly the concatenation of the blocks, whatever
      their sizes, empty ones included. */
  lemma {:induction false} IngestAiterStoresAll(cfg: Cfg, s: State, id: string, blocks: seq<Bytes>, size: nat)
    ensures var q := Queue(Queued(blocks), [], false);
            IngestReader(cfg, s, id, QueueScript(q), size) == IngestFixed(cfg, s, id, Concat(blocks), size)
  {
    QueuedPending(blocks);
    var q := Queue(Queued(blocks), [], false);
    assert Undelivered(q) == Concat(blocks);
    QueueScriptDelivers(q);
    StreamingEqualsBuffered(cfg, s, id, QueueScript(q), size);
  }

  /** `_QueueReader`, with the queue as the items its producer puts. */
  class QueueReader {
    var items: seq<Option<Bytes>>
    var buf: Bytes
    var eof: bool

    constructor (queued: seq<Option<Bytes>>)
      ensures State() == Queue(queued, [], false)
    {
      items := queued;
      buf := [];
      eof := false;
    }

    function State(): Queue
      reads this
    {
      Queue(items, buf, eof)
    }

    method Read(n: int) returns (out: Bytes)
      requires Terminated(State())
      modifies this
      ensures (State(), out) == ReadQueue(old(State()), n)
    {
      if n == 0 {
        return [];
      }
      var want := if n > 0 then n else READ_BUFFER;
      while !eof && |buf| < want
        invariant Terminated(State())
        invariant Fill(State(), want) == Fill(old(State()), want)
        decreases |items|
      {
        var item := items[0];
        items := items[1..];
        if item.None? {
          eof := true;
          break;
        }
        buf := buf + item.value;
      }
      if n < 0 {
        out := buf;
        buf := [];
        return;
      }
      if |buf| <= n {
        out := buf;
        buf := [];
      } else {
        out := buf[..n];
        buf := buf[n..];
      }
    }
  }
}
