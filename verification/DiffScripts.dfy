/** Edit scripts over lines, the two texts a script relates, and the longest
    common subsequence that bounds how many lines any script can keep. */
module DiffScripts {
  import opened Basics
  import opened TextLines

  datatype Kind = Equal | Delete | Insert

  datatype Op = Op(kind: Kind, line: Line)

  /** The lines a script reads. */
  function OldSide(ops: seq<Op>): seq<Line> {
    if ops == [] then []
    else (if ops[0].kind == Insert then [] else [ops[0].line]) + OldSide(ops[1..])
  }

  /** The lines a script produces. */
  function NewSide(ops: seq<Op>): seq<Line> {
    if ops == [] then []
    else (if ops[0].kind == Delete then [] else [ops[0].line]) + NewSide(ops[1..])
  }

  predicate IsScript(ops: seq<Op>, a: seq<Line>, b: seq<Line>) {
    OldSide(ops) == a && NewSide(ops) == b
  }

  /** How many lines a script keeps. */
  function Kept(ops: seq<Op>): nat {
    if ops == [] then 0 else (if ops[0].kind == Equal then 1 else 0) + Kept(ops[1..])
  }

  lemma SidesHead(op: Op, rest: seq<Op>)
    ensures OldSide([op] + rest) == (if op.kind == Insert then [] else [op.line]) + OldSide(rest)
    ensures NewSide([op] + rest) == (if op.kind == Delete then [] else [op.line]) + NewSide(rest)
    ensures Kept([op] + rest) == (if op.kind == Equal then 1 else 0) + Kept(rest)
  {
    assert ([op] + rest)[1..] == rest;
  }

  lemma {:induction false} SidesAppend(p: seq<Op>, q: seq<Op>)
    ensures OldSide(p + q) == OldSide(p) + OldSide(q)
    ensures NewSide(p + q) == NewSide(p) + NewSide(q)
    ensures Kept(p + q) == Kept(p) + Kept(q)
  {
    if p == [] {
      assert p + q == q;
    } else {
      var op, rest := p[0], p[1..];
      SidesAppend(rest, q);
      SidesHead(op, rest + q);
      SidesHead(op, rest);
      assert [op] + rest == p;
      Associate([op], rest, q);
      Associate([op.line], OldSide(rest), OldSide(q));
      Associate([op.line], NewSide(rest), NewSide(q));
    }
  }

  /** Appending one op, the form every loop of the engine uses. */
  lemma SidesPush(ops: seq<Op>, op: Op)
    ensures OldSide(ops + [op]) == OldSide(ops) + (if op.kind == Insert then [] else [op.line])
    ensures NewSide(ops + [op]) == NewSide(ops) + (if op.kind == Delete then [] else [op.line])
    ensures Kept(ops + [op]) == Kept(ops) + (if op.kind == Equal then 1 else 0)
  {
    SidesAppend(ops, [op]);
    assert [op][1..] == [];
  }

  /** Each script's length is fixed by how much it keeps, so keeping most is being shortest. */
  lemma {:induction false} ScriptLength(ops: seq<Op>)
    ensures |ops| + Kept(ops) == |OldSide(ops)| + |NewSide(ops)|
  {
    if ops != [] {
      ScriptLength(ops[1..]);
    }
  }

  function Max(x: nat, y: nat): nat {
    if x >= y then x else y
  }

  /** The length of a longest common subsequence of a and b. */
  function Lcs(a: seq<Line>, b: seq<Line>): nat
    decreases |a| + |b|
  {
    if a == [] || b == [] then 0
    else if a[0] == b[0] then 1 + Lcs(a[1..], b[1..])
    else Max(Lcs(a[1..], b), Lcs(a, b[1..]))
  }

  /** Dropping one leading line costs at most one. */
  lemma {:induction false} LcsDrop(a: seq<Line>, b: seq<Line>)
    ensures a != [] ==> Lcs(a[1..], b) <= Lcs(a, b) <= Lcs(a[1..], b) + 1
    ensures b != [] ==> Lcs(a, b[1..]) <= Lcs(a, b) <= Lcs(a, b[1..]) + 1
    decreases |a| + |b|
  {
    if a != [] && b != [] {
      LcsDrop(a[1..], b);
      LcsDrop(a, b[1..]);
    }
  }

  /** No script keeps more lines than the longest common subsequence has. */
  lemma {:induction false} KeptBounded(ops: seq<Op>)
    ensures Kept(ops) <= Lcs(OldSide(ops), NewSide(ops))
  {
    if ops != [] {
      var a, b := OldSide(ops), NewSide(ops);
      KeptBounded(ops[1..]);
      match ops[0].kind {
        case Equal =>
          assert a[1..] == OldSide(ops[1..]) && b[1..] == NewSide(ops[1..]);
        case Delete =>
          assert a[1..] == OldSide(ops[1..]) && b == NewSide(ops[1..]);
          LcsDrop(a, b);
        case Insert =>
          assert b[1..] == NewSide(ops[1..]) && a == OldSide(ops[1..]);
          LcsDrop(a, b);
      }
    }
  }

  lemma {:induction false} LcsPrefix(p: seq<Line>, a: seq<Line>, b: seq<Line>)
    ensures Lcs(p + a, p + b) == |p| + Lcs(a, b)
  {
    if p == [] {
      assert p + a == a && p + b == b;
    } else {
      assert (p + a)[1..] == p[1..] + a && (p + b)[1..] == p[1..] + b;
      LcsPrefix(p[1..], a, b);
    }
  }

  lemma {:induction false} LcsSingleton(x: Line, b: seq<Line>)
    ensures Lcs([x], b + [x]) == 1
    ensures Lcs(b + [x], [x]) == 1
  {
    var c := b + [x];
    assert [x][1..] == [];
    if b == [] {
      assert c[1..] == [];
    } else {
      assert c[1..] == b[1..] + [x];
      LcsSingleton(x, b[1..]);
    }
  }

  lemma {:induction false} LcsLast(a: seq<Line>, b: seq<Line>, x: Line)
    ensures Lcs(a + [x], b + [x]) == Lcs(a, b) + 1
    decreases |a| + |b|
  {
    if a == [] {
      assert a + [x] == [x];
      LcsSingleton(x, b);
    } else if b == [] {
      assert b + [x] == [x];
      LcsSingleton(x, a);
    } else {
      assert (a + [x])[1..] == a[1..] + [x] && (b + [x])[1..] == b[1..] + [x];
      if a[0] == b[0] {
        LcsLast(a[1..], b[1..], x);
      } else {
        LcsLast(a[1..], b, x);
        LcsLast(a, b[1..], x);
      }
    }
  }

  lemma {:induction false} LcsSuffix(a: seq<Line>, b: seq<Line>, s: seq<Line>)
    ensures Lcs(a + s, b + s) == Lcs(a, b) + |s|
    decreases |s|
  {
    if s == [] {
      assert a + s == a && b + s == b;
    } else {
      var t, x := s[..|s| - 1], s[|s| - 1];
      assert a + s == (a + t) + [x] && b + s == (b + t) + [x];
      LcsLast(a + t, b + t, x);
      LcsSuffix(a, b, t);
    }
  }

  /** Trimming a shared prefix and suffix loses nothing. */
  lemma LcsTrim(p: seq<Line>, a: seq<Line>, b: seq<Line>, s: seq<Line>)
    ensures Lcs(p + a + s, p + b + s) == |p| + Lcs(a, b) + |s|
  {
    LcsSuffix(p + a, p + b, s);
    LcsPrefix(p, a, b);
  }
}
