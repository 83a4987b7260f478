/** Classic BPF as the seccomp filters use it: an interpreter, a static check, and the two
    filter generators (internal/execworker/child_linux.go, internal/sandbox/seccomp_linux.go). */
module Bpf {
  import opened Basics

  const WORD := 0x1_0000_0000

  type Word = w: int | 0 <= w < WORD witness 0

  /** An 8-bit jump distance. */
  type Offset = o: int | 0 <= o < 256 witness 0

  /** Load a 32-bit word of the input, jump on equality, return. */
  datatype Instruction = Load(k: Word) | JumpEq(k: Word, jt: Offset, jf: Offset) | Ret(k: Word)

  /** seccomp_data: the call's arguments are 64 bits wide. */
  datatype Input = Input(nr: Word, arch: Word, ip: int, args: seq<int>)

  predicate ValidInput(d: Input) {
    0 <= d.ip < WORD * WORD && |d.args| == 6 && forall i :: 0 <= i < 6 ==> 0 <= d.args[i] < WORD * WORD
  }

  function LowWord(x: int): Word {
    x % WORD
  }

  function HighWord(x: int): Word {
    (x / WORD) % WORD
  }

  /** The word at a byte offset of the input (little-endian), if there is one. */
  function WordAt(d: Input, k: int): (r: Option<Word>)
    requires ValidInput(d)
  {
    if k == 0 then Some(d.nr)
    else if k == 4 then Some(d.arch)
    else if k == 8 then Some(LowWord(d.ip))
    else if k == 12 then Some(HighWord(d.ip))
    else if 16 <= k < 64 && k % 8 == 0 then Some(LowWord(d.args[(k - 16) / 8]))
    else if 16 <= k < 64 && k % 8 == 4 then Some(HighWord(d.args[(k - 20) / 8]))
    else None
  }

  /** Running a program from pc; None is a load or a jump out of bounds. */
  function Exec(prog: seq<Instruction>, pc: nat, acc: Word, d: Input): Option<Word>
    requires ValidInput(d)
    decreases |prog| - pc
  {
    if pc >= |prog| then None
    else
      match prog[pc]
      case Ret(k) => Some(k)
      case Load(k) =>
        (match WordAt(d, k)
         case None => None
         case Some(v) => Exec(prog, pc + 1, v, d))
      case JumpEq(k, jt, jf) => Exec(prog, pc + 1 + (if acc == k then jt else jf), acc, d)
  }

  /** What the kernel's checker demands: loads and jumps inside, and a return at the end. */
  predicate Checked(prog: seq<Instruction>) {
    && prog != [] && prog[|prog| - 1].Ret?
    && forall pc :: 0 <= pc < |prog| ==> CheckedAt(prog, pc)
  }

  predicate CheckedAt(prog: seq<Instruction>, pc: nat)
    requires pc < |prog|
  {
    match prog[pc]
    case Ret(_) => true
    case Load(k) => k < 64 && k % 4 == 0
    case JumpEq(_, jt, jf) => pc + 1 + jt < |prog| && pc + 1 + jf < |prog|
  }

  /** A checked program stops with a verdict on every input. */
  lemma {:induction false} CheckedStops(prog: seq<Instruction>, pc: nat, acc: Word, d: Input)
    requires Checked(prog) && pc < |prog| && ValidInput(d)
    ensures Exec(prog, pc, acc, d).Some?
    decreases |prog| - pc
  {
    assert CheckedAt(prog, pc);
    match prog[pc] {
      case Ret(_) =>
      case Load(k) => CheckedStops(prog, pc + 1, WordAt(d, k).value, d);
      case JumpEq(k, jt, jf) => CheckedStops(prog, pc + 1 + (if acc == k then jt else jf), acc, d);
    }
  }

  // ----- constants of the filters ------------------------------------------------

  const KILL: Word := 0x8000_0000
  const EPERM: Word := 0x0005_0001
  const ALLOW: Word := 0x7fff_0000
  const AF_INET: Word := 2
  const AF_INET6: Word := 10
  const AF_NETLINK: Word := 16
  const PR_SET_PDEATHSIG: Word := 1

  const NR := 0
  const ARCH := 4
  const ARG0 := 16

  /** The two call numbers the exec filter treats specially; they differ by architecture. */
  datatype Numbers = Numbers(socket: Word, prctl: Word)

  // ----- generators -----------------------------------------------------------------

  function ArchHeader(arch: Word): seq<Instruction> {
    [Load(ARCH), JumpEq(arch, 1, 0), Ret(KILL), Load(NR)]
  }

  function SocketRules(socket: Word): seq<Instruction> {
    [JumpEq(socket, 0, 5), Load(ARG0), JumpEq(AF_INET, 3, 0), JumpEq(AF_INET6, 2, 0), JumpEq(AF_NETLINK, 1, 0),
     Ret(EPERM), Load(NR)]
  }

  function DenyRules(denied: seq<Word>): seq<Instruction> {
    if denied == [] then [] else [JumpEq(denied[0], 0, 1), Ret(EPERM)] + DenyRules(denied[1..])
  }

  function PrctlRules(prctl: Word): seq<Instruction> {
    [JumpEq(prctl, 0, 3), Load(ARG0), JumpEq(PR_SET_PDEATHSIG, 0, 1), Ret(EPERM)]
  }

  function SimpleFilter(arch: Word, denied: seq<Word>): seq<Instruction> {
    ArchHeader(arch) + DenyRules(denied) + [Ret(ALLOW)]
  }

  function ExecFilter(arch: Word, n: Numbers, denied: seq<Word>): seq<Instruction> {
    ArchHeader(arch) + SocketRules(n.socket) + DenyRules(denied) + PrctlRules(n.prctl) + [Ret(ALLOW)]
  }

  lemma {:induction false} DenyRulesPush(denied: seq<Word>, number: Word)
    ensures DenyRules(denied + [number]) == DenyRules(denied) + [JumpEq(number, 0, 1), Ret(EPERM)]
  {
    if denied != [] {
      assert (denied + [number])[1..] == denied[1..] + [number];
      DenyRulesPush(denied[1..], number);
    }
  }

  method AppendDenied(start: seq<Instruction>, denied: seq<Word>) returns (filters: seq<Instruction>)
    ensures filters == start + DenyRules(denied)
  {
    filters := start;
    for i := 0 to |denied|
      invariant filters == start + DenyRules(denied[..i])
    {
      DenyRulesPush(denied[..i], denied[i]);
      assert denied[..i + 1] == denied[..i] + [denied[i]];
      filters := filters + [JumpEq(denied[i], 0, 1), Ret(EPERM)];
    }
    assert denied[..|denied|] == denied;
  }

  // ----- meaning -----------------------------------------------------------------------

  /** What the simple filter is meant to decide. */
  function SimpleVerdict(arch: Word, denied: seq<Word>, d: Input): Word {
    if d.arch != arch then KILL else if d.nr in denied then EPERM else ALLOW
  }

  /** What the exec filter is meant to decide; the kernel reads both arguments as 32-bit values. */
  function ExecVerdict(arch: Word, n: Numbers, denied: seq<Word>, d: Input): Word
    requires ValidInput(d)
  {
    if d.arch != arch then KILL
    else if d.nr == n.socket && LowWord(d.args[0]) !in {AF_INET, AF_INET6, AF_NETLINK} then EPERM
    else if d.nr in denied then EPERM
    else if d.nr == n.prctl && LowWord(d.args[0]) == PR_SET_PDEATHSIG then EPERM
    else ALLOW
  }

  /** A piece of code sits in a program at a position. */
  ghost predicate At(prog: seq<Instruction>, pc: nat, code: seq<Instruction>) {
    pc + |code| <= |prog| && forall i :: 0 <= i < |code| ==> prog[pc + i] == code[i]
  }

  lemma AtAppend(prog: seq<Instruction>, pc: nat, a: seq<Instruction>, b: seq<Instruction>)
    requires At(prog, pc, a + b)
    ensures At(prog, pc, a) && At(prog, pc + |a|, b)
  {
    forall i | 0 <= i < |a|
      ensures prog[pc + i] == a[i]
    {
      assert (a + b)[i] == a[i];
    }
    forall i | 0 <= i < |b|
      ensures prog[pc + |a| + i] == b[i]
    {
      assert (a + b)[|a| + i] == b[i];
    }
  }

  /** Where the parts of a concatenation are. */
  lemma Parts(prog: seq<Instruction>, a: seq<Instruction>, b: seq<Instruction>, c: seq<Instruction>,
              e: seq<Instruction>, f: seq<Instruction>)
    requires prog == a + b + c + e + f
    ensures At(prog, 0, a) && At(prog, |a|, b) && At(prog, |a| + |b|, c) && At(prog, |a| + |b| + |c|, e + f)
    ensures |prog| == |a| + |b| + |c| + |e| + |f|
  {
    assert prog == a + (b + (c + (e + f)));
    AtAppend(prog, 0, a, b + (c + (e + f)));
    AtAppend(prog, |a|, b, c + (e + f));
    AtAppend(prog, |a| + |b|, c, e + f);
  }

  lemma AtHead(prog: seq<Instruction>, pc: nat, code: seq<Instruction>)
    requires At(prog, pc, code) && code != []
    ensures pc < |prog| && prog[pc] == code[0] && At(prog, pc + 1, code[1..])
  {
    assert prog[pc + 0] == code[0];
    forall i | 0 <= i < |code| - 1
      ensures prog[pc + 1 + i] == code[1..][i]
    {
      assert prog[pc + (i + 1)] == code[i + 1];
    }
  }

  /** The deny list: EPERM for a listed number, otherwise straight on to what follows. */
  lemma {:induction false} DenyRulesWork(prog: seq<Instruction>, pc: nat, denied: seq<Word>, d: Input)
    requires ValidInput(d) && At(prog, pc, DenyRules(denied))
    ensures Exec(prog, pc, d.nr, d)
            == if d.nr in denied then Some(EPERM) else Exec(prog, pc + |DenyRules(denied)|, d.nr, d)
    decreases |denied|
  {
    if denied != [] {
      var rule := [JumpEq(denied[0], 0, 1), Ret(EPERM)];
      AtAppend(prog, pc, rule, DenyRules(denied[1..]));
      assert prog[pc + 0] == rule[0] && prog[pc + 1] == rule[1];
      if d.nr != denied[0] {
        DenyRulesWork(prog, pc + 2, denied[1..], d);
      }
    }
  }

  lemma ArchHeaderWorks(prog: seq<Instruction>, arch: Word, d: Input)
    requires ValidInput(d) && At(prog, 0, ArchHeader(arch))
    ensures Exec(prog, 0, 0, d) == if d.arch != arch then Some(KILL) else Exec(prog, 4, d.nr, d)
  {
    var code := ArchHeader(arch);
    assert prog[0 + 0] == code[0] && prog[0 + 1] == code[1] && prog[0 + 2] == code[2] && prog[0 + 3] == code[3];
    assert Exec(prog, 0, 0, d) == Exec(prog, 1, d.arch, d);
    assert Exec(prog, 1, d.arch, d) == Exec(prog, if d.arch == arch then 3 else 2, d.arch, d);
    assert Exec(prog, 2, d.arch, d) == Some(KILL);
    assert Exec(prog, 3, d.arch, d) == Exec(prog, 4, d.nr, d);
  }

  /** Five jumps decide on the socket family; the call number is back in the accumulator after them. */
  lemma SocketRulesWork(prog: seq<Instruction>, pc: nat, socket: Word, d: Input)
    requires ValidInput(d) && At(prog, pc, SocketRules(socket))
    ensures Exec(prog, pc, d.nr, d)
            == if d.nr == socket && LowWord(d.args[0]) !in {AF_INET, AF_INET6, AF_NETLINK} then Some(EPERM)
               else Exec(prog, pc + 7, d.nr, d)
  {
    var code := SocketRules(socket);
    var family := LowWord(d.args[0]);
    assert prog[pc + 0] == code[0] && prog[pc + 1] == code[1] && prog[pc + 2] == code[2] && prog[pc + 3] == code[3];
    assert prog[pc + 4] == code[4] && prog[pc + 5] == code[5] && prog[pc + 6] == code[6];
    assert Exec(prog, pc + 6, family, d) == Exec(prog, pc + 7, d.nr, d);
    assert Exec(prog, pc + 6, d.nr, d) == Exec(prog, pc + 7, d.nr, d);
    assert Exec(prog, pc + 5, family, d) == Some(EPERM);
    assert Exec(prog, pc + 4, family, d) == Exec(prog, if family == AF_NETLINK then pc + 6 else pc + 5, family, d);
    assert Exec(prog, pc + 3, family, d) == Exec(prog, if family == AF_INET6 then pc + 6 else pc + 4, family, d);
    assert Exec(prog, pc + 2, family, d) == Exec(prog, if family == AF_INET then pc + 6 else pc + 3, family, d);
    assert Exec(prog, pc + 1, d.nr, d) == Exec(prog, pc + 2, family, d);
  }

  lemma PrctlRulesWork(prog: seq<Instruction>, pc: nat, prctl: Word, d: Input)
    requires ValidInput(d) && At(prog, pc, PrctlRules(prctl) + [Ret(ALLOW)])
    ensures Exec(prog, pc, d.nr, d)
            == Some(if d.nr == prctl && LowWord(d.args[0]) == PR_SET_PDEATHSIG then EPERM else ALLOW)
  {
    var code := PrctlRules(prctl) + [Ret(ALLOW)];
    var arg := LowWord(d.args[0]);
    assert prog[pc + 0] == code[0] && prog[pc + 1] == code[1] && prog[pc + 2] == code[2];
    assert prog[pc + 3] == code[3] && prog[pc + 4] == code[4];
    assert Exec(prog, pc + 1, d.nr, d) == Exec(prog, pc + 2, arg, d);
    assert Exec(prog, pc + 3, arg, d) == Some(EPERM);
    assert Exec(prog, pc + 4, arg, d) == Some(ALLOW) && Exec(prog, pc + 4, d.nr, d) == Some(ALLOW);
  }

  /** The simple filter decides as intended, for every deny list and every input. */
  lemma SimpleFilterCorrect(arch: Word, denied: seq<Word>, d: Input)
    requires ValidInput(d)
    ensures Exec(SimpleFilter(arch, denied), 0, 0, d) == Some(SimpleVerdict(arch, denied, d))
    ensures Exec(SimpleFilter(arch, denied), 0, 0, d)
              == Some(if d.arch != arch then KILL else if d.nr in denied then EPERM else ALLOW)
  {
    var prog := SimpleFilter(arch, denied);
    AtAppend(prog, 0, ArchHeader(arch) + DenyRules(denied), [Ret(ALLOW)]);
    AtAppend(prog, 0, ArchHeader(arch), DenyRules(denied));
    ArchHeaderWorks(prog, arch, d);
    DenyRulesWork(prog, 4, denied, d);
    AtHead(prog, 4 + |DenyRules(denied)|, [Ret(ALLOW)]);
  }

  /** The exec filter decides as intended, for every deny list and every input. */
  lemma ExecFilterCorrect(arch: Word, n: Numbers, denied: seq<Word>, d: Input)
    requires ValidInput(d)
    ensures Exec(ExecFilter(arch, n, denied), 0, 0, d) == Some(ExecVerdict(arch, n, denied, d))
    ensures var family, option := d.args[0] % WORD, d.args[0] % WORD;
            Exec(ExecFilter(arch, n, denied), 0, 0, d)
              == Some(if d.arch != arch then KILL
                      else if d.nr in denied
                              || (d.nr == n.socket && family != AF_INET && family != AF_INET6 && family != AF_NETLINK)
                              || (d.nr == n.prctl && option == PR_SET_PDEATHSIG)
                           then EPERM else ALLOW)
  {
    var prog := ExecFilter(arch, n, denied);
    ExecLayout(arch, n, denied);
    ArchHeaderWorks(prog, arch, d);
    SocketRulesWork(prog, 4, n.socket, d);
    DenyRulesWork(prog, 11, denied, d);
    PrctlRulesWork(prog, 11 + |DenyRules(denied)|, n.prctl, d);
  }

  lemma ExecLayout(arch: Word, n: Numbers, denied: seq<Word>)
    ensures var prog := ExecFilter(arch, n, denied);
            && At(prog, 0, ArchHeader(arch)) && At(prog, 4, SocketRules(n.socket)) && At(prog, 11, DenyRules(denied))
            && At(prog, 11 + |DenyRules(denied)|, PrctlRules(n.prctl) + [Ret(ALLOW)])
            && |prog| == 16 + |DenyRules(denied)|
  {
    Parts(ExecFilter(arch, n, denied), ArchHeader(arch), SocketRules(n.socket), DenyRules(denied), PrctlRules(n.prctl),
      [Ret(ALLOW)]);
  }

  lemma {:induction false} DenyRulesLength(denied: seq<Word>)
    ensures |DenyRules(denied)| == 2 * |denied|
  {
    if denied != [] {
      DenyRulesLength(denied[1..]);
    }
  }

  lemma {:induction false} DenyRulesChecked(prog: seq<Instruction>, pc: nat, denied: seq<Word>)
    requires At(prog, pc, DenyRules(denied)) && pc + |DenyRules(denied)| < |prog|
    ensures forall q :: pc <= q < pc + |DenyRules(denied)| ==> CheckedAt(prog, q)
    decreases |denied|
  {
    if denied != [] {
      var rule := [JumpEq(denied[0], 0, 1), Ret(EPERM)];
      AtAppend(prog, pc, rule, DenyRules(denied[1..]));
      assert prog[pc + 0] == rule[0] && prog[pc + 1] == rule[1];
      DenyRulesChecked(prog, pc + 2, denied[1..]);
    }
  }

  /** A fixed piece of code passes the check when its jumps stay inside. */
  lemma PieceChecked(prog: seq<Instruction>, pc: nat, code: seq<Instruction>, q: nat)
    requires At(prog, pc, code) && pc <= q < pc + |code|
    requires code[q - pc].Load? ==> code[q - pc].k < 64 && code[q - pc].k % 4 == 0
    requires code[q - pc].JumpEq? ==> q + 1 + code[q - pc].jt < |prog| && q + 1 + code[q - pc].jf < |prog|
    ensures CheckedAt(prog, q)
  {
    assert prog[pc + (q - pc)] == code[q - pc];
  }

  lemma SimpleChecked(arch: Word, denied: seq<Word>)
    ensures Checked(SimpleFilter(arch, denied))
  {
    var prog := SimpleFilter(arch, denied);
    DenyRulesLength(denied);
    AtAppend(prog, 0, ArchHeader(arch) + DenyRules(denied), [Ret(ALLOW)]);
    AtAppend(prog, 0, ArchHeader(arch), DenyRules(denied));
    forall q | 0 <= q < |prog|
      ensures CheckedAt(prog, q)
    {
      if q < 4 {
        PieceChecked(prog, 0, ArchHeader(arch), q);
      } else if q < 4 + 2 * |denied| {
        DenyRulesChecked(prog, 4, denied);
      } else {
        PieceChecked(prog, 4 + 2 * |denied|, [Ret(ALLOW)], q);
      }
    }
  }

  lemma ExecChecked(arch: Word, n: Numbers, denied: seq<Word>)
    ensures Checked(ExecFilter(arch, n, denied))
  {
    var prog := ExecFilter(arch, n, denied);
    var m := 2 * |denied|;
    ExecLayout(arch, n, denied);
    DenyRulesLength(denied);
    forall q | 0 <= q < |prog|
      ensures CheckedAt(prog, q)
    {
      if q < 4 {
        PieceChecked(prog, 0, ArchHeader(arch), q);
      } else if q < 11 {
        PieceChecked(prog, 4, SocketRules(n.socket), q);
      } else if q < 11 + m {
        DenyRulesChecked(prog, 11, denied);
      } else {
        PieceChecked(prog, 11 + m, PrctlRules(n.prctl) + [Ret(ALLOW)], q);
      }
    }
  }

  /** Both generators emit programs the kernel accepts: the length check of the kernel (4096
      instructions) and the 16-bit length field are met by every deny list of up to 2040 numbers. */
  lemma FiltersChecked(arch: Word, n: Numbers, denied: seq<Word>)
    ensures Checked(SimpleFilter(arch, denied)) && |SimpleFilter(arch, denied)| == 5 + 2 * |denied|
    ensures Checked(ExecFilter(arch, n, denied)) && |ExecFilter(arch, n, denied)| == 16 + 2 * |denied|
    ensures |denied| <= 2040 <==> |ExecFilter(arch, n, denied)| <= 4096
  {
    DenyRulesLength(denied);
    SimpleChecked(arch, denied);
    ExecChecked(arch, n, denied);
  }

  method ApplySeccomp(arch: Word, denied: seq<Word>) returns (filters: seq<Instruction>)
    ensures filters == SimpleFilter(arch, denied)
    ensures forall d :: ValidInput(d) ==> Exec(filters, 0, 0, d) == Some(SimpleVerdict(arch, denied, d))
  {
    filters := [Load(ARCH), JumpEq(arch, 1, 0), Ret(KILL), Load(NR)];
    filters := AppendDenied(filters, denied);
    filters := filters + [Ret(ALLOW)];
    forall d | ValidInput(d)
      ensures Exec(filters, 0, 0, d) == Some(SimpleVerdict(arch, denied, d))
    {
      SimpleFilterCorrect(arch, denied, d);
    }
  }

  method ApplyExecSeccomp(arch: Word, n: Numbers, denied: seq<Word>) returns (filters: seq<Instruction>)
    ensures filters == ExecFilter(arch, n, denied)
    ensures forall d :: ValidInput(d) ==> Exec(filters, 0, 0, d) == Some(ExecVerdict(arch, n, denied, d))
  {
    filters := ArchHeader(arch) + SocketRules(n.socket);
    filters := AppendDenied(filters, denied);
    filters := filters + PrctlRules(n.prctl);
    filters := filters + [Ret(ALLOW)];
    forall d | ValidInput(d)
      ensures Exec(filters, 0, 0, d) == Some(ExecVerdict(arch, n, denied, d))
    {
      ExecFilterCorrect(arch, n, denied, d);
    }
  }
}
