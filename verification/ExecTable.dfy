/** The process table of the exec backend and its critical sections, and the output
    budget two streams share (internal/execworker/backend_linux.go). */
module ExecTable {

  datatype Owner = Owner(principal: string, sessionId: string)

  /** Whether a process was launched by exec_run or by process_start. */
  datatype Kind = RunTask | StartTask

  datatype Record = Record(owner: Owner, kind: Kind)

  /** Everything the table mutex protects: the listed records, which of all launched
      processes still run, and the closed flag. */
  datatype Table = Table(records: map<nat, Record>, items: set<nat>, running: set<nat>, closed: bool)

  function OwnedItems(t: Table, owner: Owner): set<nat> {
    set p | p in t.items && p in t.records && t.records[p].owner == owner
  }

  function RunningItems(t: Table): set<nat> {
    t.items * t.running
  }

  function Inserted(t: Table, p: nat): Table {
    if t.closed then t else t.(items := t.items + {p})
  }

  class ProcessTable {
    var records: map<nat, Record>
    var items: set<nat>
    var running: set<nat>
    var closed: bool

    ghost function View(): Table
      reads this
    {
      Table(records, items, running, closed)
    }

    constructor ()
      ensures View() == Table(map[], {}, {}, false)
    {
      records, items, running, closed := map[], {}, {}, false;
    }

    /** The end of launch: a record enters the table unless it was closed meanwhile. */
    method Insert(p: nat) returns (ok: bool)
      modifies this
      ensures View() == Inserted(old(View()), p) && ok == !old(closed)
      ensures items == (if ok then old(items) + {p} else old(items))
    {
      if closed {
        return false;
      }
      items := items + {p};
      ok := true;
    }

    /** The end of wait. */
    method MarkExited(p: nat)
      modifies this
      ensures View() == old(View()).(running := old(running) - {p})
    {
      running := running - {p};
    }

    /** The first section of revoke. */
    method Collect(owner: Owner) returns (found: set<nat>)
      ensures found == OwnedItems(View(), owner)
      ensures forall p :: p in found <==> p in items && p in records && records[p].owner == owner
    {
      found := {};
      var rest := items;
      while rest != {}
        invariant rest <= items
        invariant forall p :: p in found <==> p in items - rest && p in records && records[p].owner == owner
        decreases rest
      {
        var p :| p in rest;
        if p in records && records[p].owner == owner {
          found := found + {p};
        }
        rest := rest - {p};
      }
    }

    /** The last section of revoke. */
    method Remove(found: set<nat>)
      modifies this
      ensures View() == old(View()).(items := old(items) - found)
    {
      var rest := found;
      while rest != {}
        invariant rest <= found && View() == old(View()).(items := old(items) - (found - rest))
        decreases rest
      {
        var p :| p in rest;
        items := items - {p};
        rest := rest - {p};
      }
    }

    /** The first section of close; a second caller finds the table closed and waits for nothing. */
    method BeginClose() returns (first: bool, found: set<nat>)
      modifies this
      ensures View() == old(View()).(closed := true) && first == !old(closed)
      ensures found == if first then RunningItems(View()) else {}
      ensures first ==> found == items * running
    {
      found := {};
      if closed {
        return false, found;
      }
      closed := true;
      first := true;
      var rest := items;
      while rest != {}
        invariant rest <= items && closed && View() == old(View()).(closed := true)
        invariant found == (items - rest) * running
        decreases rest
      {
        var p :| p in rest;
        if p in running {
          found := found + {p};
        }
        rest := rest - {p};
      }
    }
  }

  // ----- bounded output -------------------------------------------------------

  datatype Chunk = Chunk(stderr: bool, bytes: seq<int>)

  function Total(chunks: seq<Chunk>): nat {
    if chunks == [] then 0 else Total(chunks[..|chunks| - 1]) + |chunks[|chunks| - 1].bytes|
  }

  /** The bytes of the first `limit` arriving bytes that belong to one stream. */
  function Accepted(chunks: seq<Chunk>, limit: nat, stderr: bool): seq<int> {
    if chunks == [] then []
    else
      var before, last := chunks[..|chunks| - 1], chunks[|chunks| - 1];
      var room := if Total(before) >= limit then 0 else limit - Total(before);
      Accepted(before, limit, stderr)
      + (if last.stderr != stderr then [] else if |last.bytes| <= room then last.bytes else last.bytes[..room])
  }

  /** Both streams together keep exactly min(total, limit) bytes. */
  lemma {:induction false} AcceptedLength(chunks: seq<Chunk>, limit: nat)
    ensures |Accepted(chunks, limit, false)| + |Accepted(chunks, limit, true)|
            == if Total(chunks) < limit then Total(chunks) else limit
  {
    if chunks != [] {
      AcceptedLength(chunks[..|chunks| - 1], limit);
    }
  }

  /** What one more chunk adds to a stream. */
  lemma AcceptedPush(chunks: seq<Chunk>, chunk: Chunk, limit: nat, stderr: bool)
    ensures Total(chunks + [chunk]) == Total(chunks) + |chunk.bytes|
    ensures var room := if Total(chunks) >= limit then 0 else limit - Total(chunks);
            var kept := if |chunk.bytes| <= room then chunk.bytes else chunk.bytes[..room];
            Accepted(chunks + [chunk], limit, stderr)
              == Accepted(chunks, limit, stderr) + (if chunk.stderr != stderr then [] else kept)
  {
    assert (chunks + [chunk])[..|chunks|] == chunks;
  }

  class BoundedOutput {
    const limit: nat
    var remaining: int
    var stdout: seq<int>
    var stderr: seq<int>
    var truncated: bool
    ghost var arrived: seq<Chunk>

    /** The buffers are what the shared budget allows of everything that arrived. */
    ghost predicate Valid()
      reads this
    {
      && remaining == (if Total(arrived) < limit then limit - Total(arrived) else 0)
      && stdout == Accepted(arrived, limit, false)
      && stderr == Accepted(arrived, limit, true)
      && (truncated <==> Total(arrived) > limit)
    }

    constructor (limit: nat)
      ensures Valid() && this.limit == limit && arrived == []
    {
      this.limit := limit;
      remaining := limit;
      stdout, stderr, truncated, arrived := [], [], false, [];
    }

    method Write(toStderr: bool, value: seq<int>) returns (n: nat)
      requires Valid()
      modifies this
      ensures Valid() && n == |value|
      ensures arrived == old(arrived) + [Chunk(toStderr, value)]
    {
      AcceptedPush(arrived, Chunk(toStderr, value), limit, false);
      AcceptedPush(arrived, Chunk(toStderr, value), limit, true);
      arrived := arrived + [Chunk(toStderr, value)];
      var accepted := |value|;
      if accepted > remaining {
        accepted := remaining;
        truncated := true;
      }
      if accepted > 0 {
        if toStderr {
          stderr := stderr + value[..accepted];
        } else {
          stdout := stdout + value[..accepted];
        }
        remaining := remaining - accepted;
      }
      n := |value|;
    }

    /** The snapshot never exceeds the limit and says truncated exactly when bytes were dropped. */
    method Snapshot() returns (out: seq<int>, err: seq<int>, cut: bool)
      requires Valid()
      ensures out == Accepted(arrived, limit, false) && err == Accepted(arrived, limit, true)
      ensures |out| + |err| <= limit
      ensures cut <==> |out| + |err| < Total(arrived)
    {
      AcceptedLength(arrived, limit);
      return stdout, stderr, truncated;
    }
  }


  // ----- what the bounded output keeps ------------------------------------------

  /** Every byte in the order of its arrival, with its stream. */
  function Arrivals(chunks: seq<Chunk>): seq<(bool, int)> {
    if chunks == [] then []
    else
      var last := chunks[|chunks| - 1];
      Arrivals(chunks[..|chunks| - 1]) + Tag(last.bytes, last.stderr)
  }

  /** The bytes of one stream. */
  function OfStream(arrivals: seq<(bool, int)>, stderr: bool): seq<int> {
    if arrivals == [] then []
    else
      var last := arrivals[|arrivals| - 1];
      OfStream(arrivals[..|arrivals| - 1], stderr) + (if last.0 == stderr then [last.1] else [])
  }

  lemma {:induction false} ArrivalsTotal(chunks: seq<Chunk>)
    ensures |Arrivals(chunks)| == Total(chunks)
  {
    if chunks != [] {
      ArrivalsTotal(chunks[..|chunks| - 1]);
    }
  }

  lemma OfStreamSnoc(a: seq<(bool, int)>, x: (bool, int), stderr: bool)
    ensures OfStream(a + [x], stderr) == OfStream(a, stderr) + (if x.0 == stderr then [x.1] else [])
  {
    assert (a + [x])[..|a|] == a;
  }

  lemma TagSnoc(a: seq<(bool, int)>, bytes: seq<int>, last: int, tag: bool)
    ensures a + Tag(bytes + [last], tag) == (a + Tag(bytes, tag)) + [(tag, last)]
  {
  }

  lemma {:induction false} OfStreamAppend(a: seq<(bool, int)>, tag: bool, bytes: seq<int>, stderr: bool)
    ensures OfStream(a + Tag(bytes, tag), stderr) == OfStream(a, stderr) + (if tag == stderr then bytes else [])
    decreases |bytes|
  {
    if bytes == [] {
      assert a + Tag(bytes, tag) == a;
    } else {
      var rest, last := bytes[..|bytes| - 1], bytes[|bytes| - 1];
      OfStreamAppend(a, tag, rest, stderr);
      TagSnoc(a, rest, last, tag);
      OfStreamSnoc(a + Tag(rest, tag), (tag, last), stderr);
      assert bytes == rest + [last];
    }
  }

  /** The first limit of the arrivals so far and of one more chunk. */
  function FirstOf(arrivals: seq<(bool, int)>, limit: nat): seq<(bool, int)> {
    if |arrivals| <= limit then arrivals else arrivals[..limit]
  }

  function Tag(bytes: seq<int>, tag: bool): seq<(bool, int)> {
    seq(|bytes|, i requires 0 <= i < |bytes| => (tag, bytes[i]))
  }

  lemma FirstOfMore(early: seq<(bool, int)>, limit: nat, bytes: seq<int>, tag: bool)
    ensures var room := if |early| >= limit then 0 else limit - |early|;
            var kept := if |bytes| <= room then bytes else bytes[..room];
            FirstOf(early + Tag(bytes, tag), limit) == FirstOf(early, limit) + Tag(kept, tag)
  {
  }

  /** Each stream keeps exactly its own bytes among the first `limit` that arrived on both. */
  lemma {:induction false} AcceptedIs(chunks: seq<Chunk>, limit: nat, stderr: bool)
    ensures Accepted(chunks, limit, stderr) == OfStream(FirstOf(Arrivals(chunks), limit), stderr)
  {
    if chunks != [] {
      var before, last := chunks[..|chunks| - 1], chunks[|chunks| - 1];
      AcceptedIs(before, limit, stderr);
      ArrivalsTotal(before);
      var early := Arrivals(before);
      var room := if |early| >= limit then 0 else limit - |early|;
      var kept := if |last.bytes| <= room then last.bytes else last.bytes[..room];
      FirstOfMore(early, limit, last.bytes, last.stderr);
      OfStreamAppend(FirstOf(early, limit), last.stderr, kept, stderr);
    }
  }
}
