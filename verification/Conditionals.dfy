/**
 The conditional directives of the preprocessor: a flat machine with two flags and a stack, and the nested groups that
 it implements.
 */
module Conditionals {

  /** What `parsegen` calls: macro expansion, definition and removal of macros, and evaluation of expressions. */
  datatype Env<!T, !V> = Env(
    expand: (map<string, V>, seq<T>) -> seq<T>,
    define: (map<string, V>, seq<T>) -> map<string, V>,
    undefine: (map<string, V>, seq<T>) -> map<string, V>,
    evaluate: (map<string, V>, seq<T>) -> bool)

  datatype Test<T> = IfDef(name: string) | IfNotDef(name: string) | IfTrue(expression: seq<T>)

  /** A line: a directive, or normal text. Directives that are not known are passed over. */
  datatype Line<T> =
    | Text(tokens: seq<T>)
    | Define(args: seq<T>)
    | Undef(args: seq<T>)
    | Unknown
    | If(test: Test<T>)
    | Elif(expression: seq<T>)
    | Else
    | Endif

  /** The macros, the text that waits for expansion, what was emitted, and the tests evaluated, each with its macros. */
  datatype Output<T, V> = Output(macros: map<string, V>, chunk: seq<T>, emitted: seq<T>,
                                 tests: seq<(map<string, V>, Test<T>)>)

  predicate Holds<T, V>(env: Env<T, V>, macros: map<string, V>, test: Test<T>) {
    match test
    case IfDef(name) => name in macros
    case IfNotDef(name) => name !in macros
    case IfTrue(expression) => env.evaluate(macros, expression)
  }

  function Flush<T, V>(env: Env<T, V>, o: Output<T, V>): Output<T, V> {
    o.(emitted := o.emitted + env.expand(o.macros, o.chunk), chunk := [])
  }

  function Evaluated<T, V>(o: Output<T, V>, test: Test<T>): Output<T, V> {
    o.(tests := o.tests + [(o.macros, test)])
  }

  /** The effect of a line that is not a conditional directive, where lines are enabled. */
  function Plain<T, V>(env: Env<T, V>, o: Output<T, V>, line: Line<T>): Output<T, V> {
    match line
    case Text(tokens) => o.(chunk := o.chunk + tokens)
    case Define(args) => var f := Flush(env, o); f.(macros := env.define(f.macros, args))
    case Undef(args) => var f := Flush(env, o); f.(macros := env.undefine(f.macros, args))
    case _ => o
  }

  predicate IsPlain<T>(line: Line<T>) { line.Text? || line.Define? || line.Undef? || line.Unknown? }

  // ----- Nested groups -----

  /** A line, or a group: a first test with its lines, and alternatives in any order. */
  datatype Block<T> = Single(line: Line<T>) | Group(test: Test<T>, body: seq<Block<T>>, rest: seq<Branch<T>>)

  /** An `#elif` with its expression, or an `#else`, with its lines. */
  datatype Branch<T> = Branch(head: Line<T>, body: seq<Block<T>>)

  ghost predicate IsBlock<T>(b: Block<T>) {
    match b
    case Single(line) => IsPlain(line)
    case Group(_, body, rest) =>
      (forall c :: c in body ==> IsBlock(c)) && (forall r :: r in rest ==> IsBranch(r))
  }

  ghost predicate IsBranch<T>(r: Branch<T>) {
    (r.head.Elif? || r.head.Else?) && forall c :: c in r.body ==> IsBlock(c)
  }

  ghost predicate AreBlocks<T>(bs: seq<Block<T>>) { forall b :: b in bs ==> IsBlock(b) }

  ghost predicate AreBranches<T>(rs: seq<Branch<T>>) { forall r :: r in rs ==> IsBranch(r) }

  /** The lines of a group, in order. */
  function Lines<T>(b: Block<T>): seq<Line<T>>
    decreases b, 0
  {
    match b
    case Single(line) => [line]
    case Group(test, body, rest) => [If(test)] + AllLines(body) + BranchLines(rest) + [Endif]
  }

  function AllLines<T>(bs: seq<Block<T>>): seq<Line<T>>
    decreases bs, 1
  {
    if bs == [] then [] else Lines(bs[0]) + AllLines(bs[1..])
  }

  function BranchLines<T>(rs: seq<Branch<T>>): seq<Line<T>>
    decreases rs, 1
  {
    if rs == [] then [] else [rs[0].head] + AllLines(rs[0].body) + BranchLines(rs[1..])
  }

  /** What a nested group means: the lines of its first branch whose test holds, and nothing of the others. */
  function Run<T, V>(env: Env<T, V>, o: Output<T, V>, b: Block<T>): Output<T, V>
    decreases b, 0
  {
    match b
    case Single(line) => Plain(env, o, line)
    case Group(test, body, rest) =>
      if Holds(env, o.macros, test) then RunAll(env, Evaluated(o, test), body)
      else RunFirst(env, Evaluated(o, test), rest)
  }

  function RunAll<T, V>(env: Env<T, V>, o: Output<T, V>, bs: seq<Block<T>>): Output<T, V>
    decreases bs, 1
  {
    if bs == [] then o else RunAll(env, Run(env, o, bs[0]), bs[1..])
  }

  function RunFirst<T, V>(env: Env<T, V>, o: Output<T, V>, rs: seq<Branch<T>>): Output<T, V>
    decreases rs, 1
  {
    if rs == [] then o
    else if rs[0].head.Elif? then
      var test := IfTrue(rs[0].head.expression);
      if Holds(env, o.macros, test) then RunAll(env, Evaluated(o, test), rs[0].body)
      else RunFirst(env, Evaluated(o, test), rs[1..])
    else RunAll(env, o, rs[0].body)
  }

  // ----- The flat machine -----

  datatype Machine<T, V> = Machine(o: Output<T, V>, enable: bool, iftrigger: bool, ifstack: seq<(bool, bool)>)

  /** One line of `parsegen`. A misplaced directive is reported and has no effect. */
  function Step<T, V>(env: Env<T, V>, m: Machine<T, V>, line: Line<T>): Machine<T, V> {
    match line
    case If(test) =>
      var pushed := m.(ifstack := m.ifstack + [(m.enable, m.iftrigger)]);
      if !m.enable then pushed
      else
        var holds := Holds(env, m.o.macros, test);
        pushed.(o := Evaluated(m.o, test), enable := holds, iftrigger := holds)
    case Elif(expression) =>
      if m.ifstack == [] || !m.ifstack[|m.ifstack| - 1].0 then m
      else if m.enable then m.(enable := false)
      else if m.iftrigger then m
      else
        var tested := m.(o := Evaluated(m.o, IfTrue(expression)));
        if env.evaluate(m.o.macros, expression) then tested.(enable := true, iftrigger := true) else tested
    case Else =>
      if m.ifstack == [] || !m.ifstack[|m.ifstack| - 1].0 then m
      else if m.enable then m.(enable := false)
      else if m.iftrigger then m
      else m.(enable := true, iftrigger := true)
    case Endif =>
      if m.ifstack == [] then m
      else
        var (enable, iftrigger) := m.ifstack[|m.ifstack| - 1];
        m.(enable := enable, iftrigger := iftrigger, ifstack := m.ifstack[..|m.ifstack| - 1])
    case _ => if m.enable then m.(o := Plain(env, m.o, line)) else m
  }

  function Steps<T, V>(env: Env<T, V>, m: Machine<T, V>, lines: seq<Line<T>>): Machine<T, V>
    decreases |lines|
  {
    if lines == [] then m else Steps(env, Step(env, m, lines[0]), lines[1..])
  }

  lemma {:induction false} StepsConcat<T, V>(env: Env<T, V>, m: Machine<T, V>, u: seq<Line<T>>, v: seq<Line<T>>)
    ensures Steps(env, m, u + v) == Steps(env, Steps(env, m, u), v)
    decreases |u|
  {
    if u == [] {
      assert u + v == v;
    } else {
      assert (u + v)[1..] == u[1..] + v;
      StepsConcat(env, Step(env, m, u[0]), u[1..], v);
    }
  }

  lemma StepsOne<T, V>(env: Env<T, V>, m: Machine<T, V>, line: Line<T>)
    ensures Steps(env, m, [line]) == Step(env, m, line)
  {
    assert [line][1..] == [];
  }

  // ----- The machine implements the groups -----

  /** Where lines are enabled, the machine does what the blocks mean, and comes back as it was. */
  lemma {:induction false} EnabledBlock<T, V>(env: Env<T, V>, m: Machine<T, V>, b: Block<T>)
    requires IsBlock(b) && m.enable
    ensures Steps(env, m, Lines(b)) == m.(o := Run(env, m.o, b))
    decreases b, 0
  {
    match b
    case Single(line) =>
      StepsOne(env, m, line);
    case Group(test, body, rest) =>
      var m1 := Step(env, m, If(test));
      StepsOne(env, m, If(test));
      var m2 := Steps(env, m1, AllLines(body));
      var m3 := Steps(env, m2, BranchLines(rest));
      StepsConcat(env, m, [If(test)], AllLines(body));
      StepsConcat(env, m, [If(test)] + AllLines(body), BranchLines(rest));
      StepsConcat(env, m, [If(test)] + AllLines(body) + BranchLines(rest), [Endif]);
      if m1.enable {
        EnabledBlocks(env, m1, body);
        TriggeredBranches(env, m2, rest);
      } else {
        DisabledBlocks(env, m1, body);
        OpenBranches(env, m2, rest);
      }
      StepsOne(env, m3, Endif);
      assert m3.ifstack == m.ifstack + [(m.enable, m.iftrigger)];
      assert m3.ifstack[..|m3.ifstack| - 1] == m.ifstack;
  }

  lemma {:induction false} EnabledBlocks<T, V>(env: Env<T, V>, m: Machine<T, V>, bs: seq<Block<T>>)
    requires AreBlocks(bs) && m.enable
    ensures Steps(env, m, AllLines(bs)) == m.(o := RunAll(env, m.o, bs))
    decreases bs, 1
  {
    if bs != [] {
      EnabledBlock(env, m, bs[0]);
      StepsConcat(env, m, Lines(bs[0]), AllLines(bs[1..]));
      EnabledBlocks(env, Steps(env, m, Lines(bs[0])), bs[1..]);
    }
  }

  /** Where lines are disabled, blocks have no effect. */
  lemma {:induction false} DisabledBlock<T, V>(env: Env<T, V>, m: Machine<T, V>, b: Block<T>)
    requires IsBlock(b) && !m.enable
    ensures Steps(env, m, Lines(b)) == m
    decreases b, 0
  {
    match b
    case Single(line) =>
      StepsOne(env, m, line);
    case Group(test, body, rest) =>
      var m1 := Step(env, m, If(test));
      StepsOne(env, m, If(test));
      StepsConcat(env, m, [If(test)], AllLines(body));
      StepsConcat(env, m, [If(test)] + AllLines(body), BranchLines(rest));
      StepsConcat(env, m, [If(test)] + AllLines(body) + BranchLines(rest), [Endif]);
      DisabledBlocks(env, m1, body);
      DisabledBranches(env, m1, rest);
      StepsOne(env, m1, Endif);
      assert m1.ifstack[..|m1.ifstack| - 1] == m.ifstack;
  }

  lemma {:induction false} DisabledBlocks<T, V>(env: Env<T, V>, m: Machine<T, V>, bs: seq<Block<T>>)
    requires AreBlocks(bs) && !m.enable
    ensures Steps(env, m, AllLines(bs)) == m
    decreases bs, 1
  {
    if bs != [] {
      DisabledBlock(env, m, bs[0]);
      StepsConcat(env, m, Lines(bs[0]), AllLines(bs[1..]));
      DisabledBlocks(env, m, bs[1..]);
    }
  }

  /** The branches of a group that lies in disabled lines. */
  lemma {:induction false} DisabledBranches<T, V>(env: Env<T, V>, m: Machine<T, V>, rs: seq<Branch<T>>)
    requires AreBranches(rs) && !m.enable && m.ifstack != [] && !m.ifstack[|m.ifstack| - 1].0
    ensures Steps(env, m, BranchLines(rs)) == m
    decreases rs, 1
  {
    if rs != [] {
      assert IsBranch(rs[0]);
      StepsOne(env, m, rs[0].head);
      StepsConcat(env, m, [rs[0].head], AllLines(rs[0].body));
      StepsConcat(env, m, [rs[0].head] + AllLines(rs[0].body), BranchLines(rs[1..]));
      DisabledBlocks(env, m, rs[0].body);
      DisabledBranches(env, m, rs[1..]);
    }
  }

  /** The branches after the one that was taken. */
  lemma {:induction false} TriggeredBranches<T, V>(env: Env<T, V>, m: Machine<T, V>, rs: seq<Branch<T>>)
    requires AreBranches(rs) && m.iftrigger && m.ifstack != [] && m.ifstack[|m.ifstack| - 1].0
    ensures (var m' := Steps(env, m, BranchLines(rs)); m'.o == m.o && m'.ifstack == m.ifstack)
    decreases rs, 1
  {
    if rs != [] {
      assert IsBranch(rs[0]);
      var m1 := Step(env, m, rs[0].head);
      StepsOne(env, m, rs[0].head);
      StepsConcat(env, m, [rs[0].head], AllLines(rs[0].body));
      StepsConcat(env, m, [rs[0].head] + AllLines(rs[0].body), BranchLines(rs[1..]));
      DisabledBlocks(env, m1, rs[0].body);
      TriggeredBranches(env, m1, rs[1..]);
    }
  }

  /** The branches of a group none of which was taken yet. */
  lemma {:induction false} OpenBranches<T, V>(env: Env<T, V>, m: Machine<T, V>, rs: seq<Branch<T>>)
    requires AreBranches(rs) && !m.enable && !m.iftrigger && m.ifstack != [] && m.ifstack[|m.ifstack| - 1].0
    ensures (var m' := Steps(env, m, BranchLines(rs)); m'.o == RunFirst(env, m.o, rs) && m'.ifstack == m.ifstack)
    decreases rs, 1
  {
    if rs != [] {
      assert IsBranch(rs[0]);
      var m1 := Step(env, m, rs[0].head);
      StepsOne(env, m, rs[0].head);
      var m2 := Steps(env, m1, AllLines(rs[0].body));
      StepsConcat(env, m, [rs[0].head], AllLines(rs[0].body));
      StepsConcat(env, m, [rs[0].head] + AllLines(rs[0].body), BranchLines(rs[1..]));
      if m1.enable {
        EnabledBlocks(env, m1, rs[0].body);
        TriggeredBranches(env, m2, rs[1..]);
      } else {
        DisabledBlocks(env, m1, rs[0].body);
        OpenBranches(env, m2, rs[1..]);
      }
    }
  }

  // ----- Which lines are nested groups -----

  /** Every group that is opened is closed, and no directive is misplaced. */
  predicate Nested<T>(lines: seq<Line<T>>, depth: nat)
    decreases |lines|
  {
    if lines == [] then depth == 0
    else match lines[0]
      case If(_) => Nested(lines[1..], depth + 1)
      case Elif(_) => depth > 0 && Nested(lines[1..], depth)
      case Else => depth > 0 && Nested(lines[1..], depth)
      case Endif => depth > 0 && Nested(lines[1..], depth - 1)
      case _ => Nested(lines[1..], depth)
  }

  lemma {:induction false} BlockIsNested<T>(b: Block<T>, more: seq<Line<T>>, depth: nat)
    requires IsBlock(b)
    ensures Nested(Lines(b) + more, depth) <==> Nested(more, depth)
    decreases b, 0
  {
    match b
    case Single(line) =>
      assert ([line] + more)[1..] == more;
    case Group(test, body, rest) =>
      var after := [Endif] + more;
      assert Lines(b) + more == [If(test)] + (AllLines(body) + (BranchLines(rest) + after));
      assert ([If(test)] + (AllLines(body) + (BranchLines(rest) + after)))[1..]
          == AllLines(body) + (BranchLines(rest) + after);
      BlocksAreNested(body, BranchLines(rest) + after, depth + 1);
      BranchesAreNested(rest, after, depth + 1);
      assert after[1..] == more;
  }

  lemma {:induction false} BlocksAreNested<T>(bs: seq<Block<T>>, more: seq<Line<T>>, depth: nat)
    requires AreBlocks(bs)
    ensures Nested(AllLines(bs) + more, depth) <==> Nested(more, depth)
    decreases bs, 1
  {
    hide Nested;
    if bs == [] {
      assert AllLines(bs) + more == more;
    } else {
      BlockIsNested(bs[0], AllLines(bs[1..]) + more, depth);
      BlocksAreNested(bs[1..], more, depth);
      assert AllLines(bs) + more == Lines(bs[0]) + (AllLines(bs[1..]) + more);
    }
  }

  lemma {:induction false} BranchesAreNested<T>(rs: seq<Branch<T>>, more: seq<Line<T>>, depth: nat)
    requires AreBranches(rs) && depth > 0
    ensures Nested(BranchLines(rs) + more, depth) <==> Nested(more, depth)
    decreases rs, 1
  {
    if rs == [] {
      assert BranchLines(rs) + more == more;
    } else {
      var after := BranchLines(rs[1..]) + more;
      assert IsBranch(rs[0]);
      assert BranchLines(rs) + more == [rs[0].head] + (AllLines(rs[0].body) + after);
      assert ([rs[0].head] + (AllLines(rs[0].body) + after))[1..] == AllLines(rs[0].body) + after;
      BlocksAreNested(rs[0].body, after, depth);
      BranchesAreNested(rs[1..], more, depth);
    }
  }

  /** Nested lines are the lines of blocks, up to a directive of a group around them. */
  lemma {:induction false} ReadBlocks<T>(lines: seq<Line<T>>, depth: nat)
    returns (bs: seq<Block<T>>, more: seq<Line<T>>)
    requires Nested(lines, depth)
    ensures AreBlocks(bs) && lines == AllLines(bs) + more && Nested(more, depth)
    ensures if more == [] then depth == 0 else more[0].Elif? || more[0].Else? || more[0].Endif?
    decreases |lines|, 1
  {
    if lines == [] || lines[0].Elif? || lines[0].Else? || lines[0].Endif? {
      bs, more := [], lines;
    } else {
      var b, after := ReadBlock(lines, depth);
      var tail;
      tail, more := ReadBlocks(after, depth);
      bs := [b] + tail;
      assert bs[1..] == tail;
      assert AllLines(bs) == Lines(b) + AllLines(tail);
    }
  }

  lemma GroupLines<T>(lines: seq<Line<T>>, body: seq<Block<T>>, rest: seq<Branch<T>>, more: seq<Line<T>>)
    requires lines != [] && lines[0].If? && lines[1..] == AllLines(body) + (BranchLines(rest) + ([Endif] + more))
    ensures lines == Lines(Group(lines[0].test, body, rest)) + more
  {
    hide AllLines, BranchLines;
    assert lines == [lines[0]] + lines[1..];
  }

  lemma {:induction false} ReadBlock<T>(lines: seq<Line<T>>, depth: nat) returns (b: Block<T>, more: seq<Line<T>>)
    requires Nested(lines, depth) && lines != [] && (IsPlain(lines[0]) || lines[0].If?)
    ensures IsBlock(b) && lines == Lines(b) + more && Nested(more, depth) && |more| < |lines|
    decreases |lines|, 0
  {
    if IsPlain(lines[0]) {
      b, more := Single(lines[0]), lines[1..];
    } else {
      var body, after := ReadBlocks(lines[1..], depth + 1);
      var rest, end := ReadBranches(after, depth + 1);
      b, more := Group(lines[0].test, body, rest), end[1..];
      GroupLines(lines, body, rest, more);
    }
  }

  lemma {:induction false} ReadBranches<T>(lines: seq<Line<T>>, depth: nat)
    returns (rs: seq<Branch<T>>, more: seq<Line<T>>)
    requires Nested(lines, depth) && depth > 0 && lines != [] && (lines[0].Elif? || lines[0].Else? || lines[0].Endif?)
    ensures AreBranches(rs) && lines == BranchLines(rs) + more && Nested(more, depth) && more != [] && more[0].Endif?
    decreases |lines|, 0
  {
    if lines[0].Endif? {
      rs, more := [], lines;
    } else {
      var body, after := ReadBlocks(lines[1..], depth);
      var tail;
      tail, more := ReadBranches(after, depth);
      var r := Branch(lines[0], body);
      rs := [r] + tail;
      assert rs[1..] == tail;
      assert lines == [r.head] + (AllLines(body) + (BranchLines(tail) + more));
      assert BranchLines(rs) + more == lines;
    }
  }

  lemma OutermostLine<T>(lines: seq<Line<T>>)
    requires Nested(lines, 0)
    ensures lines == [] || IsPlain(lines[0]) || lines[0].If?
  {
  }

  /** The lines that the theorem is about are exactly those in which every directive has its place. */
  lemma NestedLinesAreBlocks<T>(lines: seq<Line<T>>)
    ensures Nested(lines, 0) <==> exists bs :: AreBlocks(bs) && AllLines(bs) == lines
  {
    if Nested(lines, 0) {
      var bs, more := ReadBlocks(lines, 0);
      OutermostLine(more);
      assert AllLines(bs) + [] == AllLines(bs);
    }
    if bs :| AreBlocks(bs) && AllLines(bs) == lines {
      BlocksAreNested(bs, [], 0);
      assert AllLines(bs) + [] == lines;
    }
  }

  // ----- What the machine does, by the lines themselves -----

  /** The macros that are left, the tokens emitted and the tests evaluated. */
  datatype Result<T, V> = Result(macros: map<string, V>, emitted: seq<T>, tests: seq<(map<string, V>, Test<T>)>)

  function Begin<T, V>(macros: map<string, V>): Machine<T, V> {
    Machine(Output(macros, [], [], []), true, false, [])
  }

  function ResultOf<T, V>(env: Env<T, V>, o: Output<T, V>): Result<T, V> {
    Result(o.macros, o.emitted + env.expand(o.macros, o.chunk), o.tests)
  }

  /** The result of lines, with these macros at the beginning. */
  function Outcome<T, V>(env: Env<T, V>, macros: map<string, V>, lines: seq<Line<T>>): Result<T, V> {
    ResultOf(env, Steps(env, Begin(macros), lines).o)
  }

  /** The same behind what was emitted and tested already. */
  function Behind<T, V>(emitted: seq<T>, tests: seq<(map<string, V>, Test<T>)>, r: Result<T, V>): Result<T, V> {
    Result(r.macros, emitted + r.emitted, tests + r.tests)
  }

  function Later<T, V>(emitted: seq<T>, tests: seq<(map<string, V>, Test<T>)>, m: Machine<T, V>): Machine<T, V> {
    m.(o := m.o.(emitted := emitted + m.o.emitted, tests := tests + m.o.tests))
  }

  lemma {:induction false} StepsLater<T, V>(env: Env<T, V>, m: Machine<T, V>, lines: seq<Line<T>>, emitted: seq<T>,
                                            tests: seq<(map<string, V>, Test<T>)>)
    ensures Steps(env, Later(emitted, tests, m), lines) == Later(emitted, tests, Steps(env, m, lines))
    decreases |lines|
  {
    hide Step, Later;
    if lines != [] {
      StepLater(env, m, lines[0], emitted, tests);
      StepsLater(env, Step(env, m, lines[0]), lines[1..], emitted, tests);
    }
  }

  lemma StepLater<T, V>(env: Env<T, V>, m: Machine<T, V>, line: Line<T>, emitted: seq<T>,
                        tests: seq<(map<string, V>, Test<T>)>)
    ensures Step(env, Later(emitted, tests, m), line) == Later(emitted, tests, Step(env, m, line))
  {
    var o := m.o;
    assert emitted + o.emitted + env.expand(o.macros, o.chunk) == emitted + (o.emitted + env.expand(o.macros, o.chunk));
    match line
    case If(test) =>
      assert tests + o.tests + [(o.macros, test)] == tests + (o.tests + [(o.macros, test)]);
    case Elif(expression) =>
      var e: Test<T> := IfTrue(expression);
      assert tests + o.tests + [(o.macros, e)] == tests + (o.tests + [(o.macros, e)]);
    case _ =>
  }

  lemma ResultLater<T, V>(env: Env<T, V>, m: Machine<T, V>, emitted: seq<T>, tests: seq<(map<string, V>, Test<T>)>)
    ensures ResultOf(env, Later(emitted, tests, m).o) == Behind(emitted, tests, ResultOf(env, m.o))
  {
    var o := m.o;
    assert emitted + o.emitted + env.expand(o.macros, o.chunk) == emitted + (o.emitted + env.expand(o.macros, o.chunk));
  }

  /** Text is collected, and expanded with the macros of its end. */
  lemma TextOutcome<T, V>(env: Env<T, V>, macros: map<string, V>, a: seq<T>, b: seq<T>, more: seq<Line<T>>)
    ensures Outcome(env, macros, [Text(a)]) == Result(macros, env.expand(macros, a), [])
    ensures Outcome(env, macros, [Text(a), Text(b)] + more) == Outcome(env, macros, [Text(a + b)] + more)
    ensures Outcome(env, macros, [Unknown] + more) == Outcome(env, macros, more)
  {
    var m := Begin(macros);
    StepsOne(env, m, Text(a));
    StepsTwo(env, m, Text(a), Text(b), more);
    StepsFirst(env, m, Text(a + b), more);
    StepsFirst(env, m, Unknown, more);
    assert [] + a + b == [] + (a + b) && [] + a == a;
  }

  lemma StepsFirst<T, V>(env: Env<T, V>, m: Machine<T, V>, line: Line<T>, more: seq<Line<T>>)
    ensures Steps(env, m, [line] + more) == Steps(env, Step(env, m, line), more)
  {
    hide Step;
    StepsConcat(env, m, [line], more);
    StepsOne(env, m, line);
  }

  lemma StepsTwo<T, V>(env: Env<T, V>, m: Machine<T, V>, a: Line<T>, b: Line<T>, more: seq<Line<T>>)
    ensures Steps(env, m, [a, b] + more) == Steps(env, Step(env, Step(env, m, a), b), more)
  {
    hide Step;
    assert [a, b] + more == [a] + ([b] + more);
    StepsFirst(env, m, a, [b] + more);
    StepsFirst(env, Step(env, m, a), b, more);
  }

  /** A definition: the text before it is expanded with the old macros, and the lines behind it see the new ones. */
  lemma DefineOutcome<T, V>(env: Env<T, V>, macros: map<string, V>, text: seq<T>, args: seq<T>, more: seq<Line<T>>)
    ensures Outcome(env, macros, [Text(text), Define(args)] + more)
         == Behind(env.expand(macros, text), [], Outcome(env, env.define(macros, args), more))
    ensures Outcome(env, macros, [Text(text), Undef(args)] + more)
         == Behind(env.expand(macros, text), [], Outcome(env, env.undefine(macros, args), more))
  {
    var m := Begin(macros);
    var e := env.expand(macros, text);
    StepsTwo(env, m, Text(text), Define(args), more);
    StepsTwo(env, m, Text(text), Undef(args), more);
    assert [] + text == text && [] + e == e && e + [] == e;
    SeenLater(env, env.define(macros, args), e, more);
    SeenLater(env, env.undefine(macros, args), e, more);
  }

  lemma SeenLater<T, V>(env: Env<T, V>, macros: map<string, V>, emitted: seq<T>, more: seq<Line<T>>)
    ensures ResultOf(env, Steps(env, Machine(Output(macros, [], emitted, []), true, false, []), more).o)
         == Behind(emitted, [], Outcome(env, macros, more))
  {
    hide Step, Steps;
    assert emitted + [] == emitted;
    assert Later(emitted, [], Begin(macros)) == Machine(Output(macros, [], emitted, []), true, false, []);
    StepsLater(env, Begin(macros), more, emitted, []);
    ResultLater(env, Steps(env, Begin(macros), more), emitted, []);
  }

  /** Does the test of a group hold: is the macro there, is it not, or is the expression true? */
  predicate IsMet<T, V>(env: Env<T, V>, macros: map<string, V>, test: Test<T>) {
    || (test.IfDef? && test.name in macros)
    || (test.IfNotDef? && test.name !in macros)
    || (test.IfTrue? && env.evaluate(macros, test.expression))
  }

  /** Would this branch be taken, if none was before it? */
  predicate IsOpen<T, V>(env: Env<T, V>, macros: map<string, V>, r: Branch<T>) {
    r.head.Else? || (r.head.Elif? && env.evaluate(macros, r.head.expression))
  }

  /** The tests of the branches, of which only an `#elif` has one. */
  function Asked<T, V>(macros: map<string, V>, rs: seq<Branch<T>>): seq<(map<string, V>, Test<T>)> {
    if rs == [] then []
    else (if rs[0].head.Elif? then [(macros, IfTrue(rs[0].head.expression))] else []) + Asked(macros, rs[1..])
  }

  /** Between the text before them and the lines behind them, `lines` do the tests and then what `bs` do. */
  ghost predicate GroupGives<T, V>(env: Env<T, V>, macros: map<string, V>, text: seq<T>, lines: seq<Line<T>>,
                                   more: seq<Line<T>>, tests: seq<(map<string, V>, Test<T>)>, bs: seq<Block<T>>) {
    Outcome(env, macros, [Text(text)] + lines + more)
    == Behind([], tests, Outcome(env, macros, [Text(text)] + AllLines(bs) + more))
  }

  /** The first branch that would be taken is the one that is run. */
  lemma {:induction false} FirstOpen<T, V>(env: Env<T, V>, macros: map<string, V>, text: seq<T>, rs: seq<Branch<T>>,
                                           tests: seq<(map<string, V>, Test<T>)>, k: nat)
    requires AreBranches(rs) && k < |rs| && IsOpen(env, macros, rs[k])
    requires forall n :: 0 <= n < k ==> !IsOpen(env, macros, rs[n])
    ensures RunFirst(env, Output(macros, text, [], tests), rs)
         == RunAll(env, Output(macros, text, [], tests + Asked(macros, rs[..k + 1])), rs[k].body)
    decreases k
  {
    hide RunAll;
    assert IsBranch(rs[0]);
    assert rs[..k + 1][0] == rs[0] && rs[..k + 1][1..] == rs[1..][..k];
    if k > 0 {
      assert [rs[0]] + rs[1..][..k] == rs[..k + 1];
      AskedMore(macros, rs[0], rs[1..][..k], tests);
      FirstOpen(env, macros, text, rs[1..], tests + Asked(macros, [rs[0]]), k - 1);
      NotTaken(env, macros, text, rs, tests);
    } else {
      assert rs[..1] == [rs[0]];
      TakenNow(env, macros, text, rs, tests);
    }
  }

  lemma AskedMore<T, V>(macros: map<string, V>, r: Branch<T>, rs: seq<Branch<T>>,
                        tests: seq<(map<string, V>, Test<T>)>)
    ensures tests + Asked(macros, [r] + rs) == tests + Asked(macros, [r]) + Asked(macros, rs)
  {
    assert ([r] + rs)[1..] == rs && [r][1..] == [];
  }

  lemma NotTaken<T, V>(env: Env<T, V>, macros: map<string, V>, text: seq<T>, rs: seq<Branch<T>>,
                       tests: seq<(map<string, V>, Test<T>)>)
    requires rs != [] && IsBranch(rs[0]) && !IsOpen(env, macros, rs[0])
    ensures RunFirst(env, Output(macros, text, [], tests), rs)
         == RunFirst(env, Output(macros, text, [], tests + Asked(macros, [rs[0]])), rs[1..])
  {
    hide RunAll;
    AskedOne(macros, rs[0]);
  }

  lemma AskedOne<T, V>(macros: map<string, V>, r: Branch<T>)
    ensures Asked(macros, [r]) == if r.head.Elif? then [(macros, IfTrue(r.head.expression))] else []
  {
    assert [r][1..] == [];
  }

  lemma TakenNow<T, V>(env: Env<T, V>, macros: map<string, V>, text: seq<T>, rs: seq<Branch<T>>,
                       tests: seq<(map<string, V>, Test<T>)>)
    requires rs != [] && IsBranch(rs[0]) && IsOpen(env, macros, rs[0])
    ensures RunFirst(env, Output(macros, text, [], tests), rs)
         == RunAll(env, Output(macros, text, [], tests + Asked(macros, [rs[0]])), rs[0].body)
  {
    hide RunAll;
    AskedOne(macros, rs[0]);
    assert tests + [] == tests;
  }

  lemma {:induction false} NoneOpen<T, V>(env: Env<T, V>, macros: map<string, V>, text: seq<T>, rs: seq<Branch<T>>,
                                          tests: seq<(map<string, V>, Test<T>)>)
    requires AreBranches(rs) && forall n :: 0 <= n < |rs| ==> !IsOpen(env, macros, rs[n])
    ensures RunFirst(env, Output(macros, text, [], tests), rs) == Output(macros, text, [], tests + Asked(macros, rs))
    decreases |rs|
  {
    if rs == [] {
      assert tests + [] == tests;
    } else {
      assert IsBranch(rs[0]) && [rs[0]] + rs[1..] == rs;
      NotTaken(env, macros, text, rs, tests);
      AskedMore(macros, rs[0], rs[1..], tests);
      NoneOpen(env, macros, text, rs[1..], tests + Asked(macros, [rs[0]]));
    }
  }

  /** What a group comes to: the body that is run, behind the tests. */
  lemma GroupIs<T, V>(env: Env<T, V>, macros: map<string, V>, text: seq<T>, group: Block<T>, more: seq<Line<T>>,
                      tests: seq<(map<string, V>, Test<T>)>, bs: seq<Block<T>>)
    requires IsBlock(group) && AreBlocks(bs)
    requires Run(env, Output(macros, text, [], []), group) == RunAll(env, Output(macros, text, [], tests), bs)
    ensures GroupGives(env, macros, text, Lines(group), more, tests, bs)
  {
    hide Steps, Lines, AllLines, Run, RunAll;
    var m := Begin(macros).(o := Output(macros, text, [], []));
    EnabledBlock(env, m, group);
    BehindText(env, macros, text, Lines(group), more);
    assert tests + [] == tests;
    assert Later([], tests, m) == m.(o := Output(macros, text, [], tests));
    EnabledBlocks(env, Later([], tests, m), bs);
    StepsConcat(env, Later([], tests, m), AllLines(bs), more);
    StepsConcat(env, m, Lines(group), more);
    StepsLater(env, m, AllLines(bs) + more, [], tests);
    BehindText(env, macros, text, AllLines(bs), more);
    ResultLater(env, Steps(env, m, AllLines(bs) + more), [], tests);
  }

  lemma BehindText<T, V>(env: Env<T, V>, macros: map<string, V>, text: seq<T>, lines: seq<Line<T>>,
                         more: seq<Line<T>>)
    ensures Steps(env, Begin(macros), [Text(text)] + lines + more)
         == Steps(env, Begin(macros).(o := Output(macros, text, [], [])), lines + more)
  {
    assert [Text(text)] + lines + more == [Text(text)] + (lines + more);
    assert [] + text == text;
    StepsFirst(env, Begin(macros), Text(text), lines + more);
  }

  /**
   A group, between any text and any lines: its body, if its test holds; otherwise the first branch that would be taken;
   otherwise nothing. The tests up to there are evaluated, and no other.
   */
  lemma GroupOutcome<T, V>(env: Env<T, V>, macros: map<string, V>, text: seq<T>, test: Test<T>, body: seq<Block<T>>,
                           rest: seq<Branch<T>>, more: seq<Line<T>>)
    requires AreBlocks(body) && AreBranches(rest)
    ensures (var lines := [If(test)] + AllLines(body) + BranchLines(rest) + [Endif];
      && (IsMet(env, macros, test) ==> GroupGives(env, macros, text, lines, more, [(macros, test)], body))
      && (!IsMet(env, macros, test) ==>
            && (forall k :: 0 <= k < |rest| && IsOpen(env, macros, rest[k])
                            && (forall n :: 0 <= n < k ==> !IsOpen(env, macros, rest[n])) ==>
                  GroupGives(env, macros, text, lines, more, [(macros, test)] + Asked(macros, rest[..k + 1]),
                             rest[k].body))
            && ((forall n :: 0 <= n < |rest| ==> !IsOpen(env, macros, rest[n])) ==>
                  GroupGives(env, macros, text, lines, more, [(macros, test)] + Asked(macros, rest), []))))
  {
    hide AllLines, BranchLines, RunAll, RunFirst, GroupGives, IsOpen;
    var group := Group(test, body, rest);
    assert [] + [(macros, test)] == [(macros, test)];
    if IsMet(env, macros, test) {
      GroupIs(env, macros, text, group, more, [(macros, test)], body);
    } else {
      forall k | 0 <= k < |rest| && IsOpen(env, macros, rest[k]) && forall n :: 0 <= n < k ==>
                   !IsOpen(env, macros, rest[n])
        ensures GroupGives(env, macros, text, Lines(group), more, [(macros, test)] + Asked(macros, rest[..k + 1]),
                           rest[k].body)
      {
        assert IsBranch(rest[k]);
        FirstOpen(env, macros, text, rest, [(macros, test)], k);
        GroupIs(env, macros, text, group, more, [(macros, test)] + Asked(macros, rest[..k + 1]), rest[k].body);
      }
      if forall n :: 0 <= n < |rest| ==> !IsOpen(env, macros, rest[n]) {
        NoneOpen(env, macros, text, rest, [(macros, test)]);
        RunNone(env, Output(macros, text, [], [(macros, test)] + Asked(macros, rest)));
        GroupIs(env, macros, text, group, more, [(macros, test)] + Asked(macros, rest), []);
      }
    }
  }

  lemma RunNone<T, V>(env: Env<T, V>, o: Output<T, V>)
    ensures RunAll(env, o, []) == o
  {
  }

  /** For example, `#ifdef` and `#ifndef`, without branches. */
  lemma IfDefOutcome<T, V>(env: Env<T, V>, macros: map<string, V>, name: string, body: seq<Block<T>>,
                           more: seq<Line<T>>)
    requires AreBlocks(body)
    ensures var r := Outcome(env, macros, (if name in macros then AllLines(body) else []) + more);
      Outcome(env, macros, [If(IfDef(name))] + AllLines(body) + [Endif] + more)
      == Behind([], [(macros, IfDef(name))], r)
    ensures var r := Outcome(env, macros, (if name in macros then [] else AllLines(body)) + more);
      Outcome(env, macros, [If(IfNotDef(name))] + AllLines(body) + [Endif] + more)
      == Behind([], [(macros, IfNotDef(name))], r)
  {
    hide Steps, Outcome;
    GroupOutcome(env, macros, [], IfDef(name), body, [], more);
    GroupOutcome(env, macros, [], IfNotDef(name), body, [], more);
    var none: seq<Branch<T>>, nothing: seq<Block<T>>, lines := [], [], AllLines(body);
    assert BranchLines(none) == [] && Asked(macros, none) == [] && AllLines(nothing) == [];
    var d: Test<T>, n: Test<T> := IfDef(name), IfNotDef(name);
    assert [(macros, d)] + [] == [(macros, d)] && [(macros, n)] + [] == [(macros, n)];
    assert [If(d)] + lines + [] == [If(d)] + lines && [If(n)] + lines + [] == [If(n)] + lines;
    NoText(env, macros, [If(d)] + lines + [Endif], more);
    NoText(env, macros, [If(n)] + lines + [Endif], more);
    NoText(env, macros, lines, more);
    NoText(env, macros, [], more);
  }

  lemma NoText<T, V>(env: Env<T, V>, macros: map<string, V>, lines: seq<Line<T>>, more: seq<Line<T>>)
    ensures Outcome(env, macros, [Text([])] + lines + more) == Outcome(env, macros, lines + more)
  {
    BehindText(env, macros, [], lines, more);
  }

  /** A directive outside of every group has no effect. */
  lemma MisplacedOutcome<T, V>(env: Env<T, V>, macros: map<string, V>, text: seq<T>, line: Line<T>,
                               more: seq<Line<T>>)
    requires line.Elif? || line.Else? || line.Endif?
    ensures Outcome(env, macros, [Text(text), line] + more) == Outcome(env, macros, [Text(text)] + more)
  {
    StepsTwo(env, Begin(macros), Text(text), line, more);
    StepsFirst(env, Begin(macros), Text(text), more);
  }

  // ----- The loop -----

  class Preprocessor<T(==), V> {
    const env: Env<T, V>
    var macros: map<string, V>

    constructor (env: Env<T, V>, macros: map<string, V>)
      ensures this.env == env && this.macros == macros
    {
      this.env, this.macros := env, macros;
    }

    /**
     `parsegen`, over lines that are grouped and classified already. What it emits, the macros that it leaves and the
     tests that it evaluates are those of the flat machine; and for nested lines, those of the nested groups.
     */
    method Parsegen(lines: seq<Line<T>>) returns (emitted: seq<T>, ghost tests: seq<(map<string, V>, Test<T>)>)
      modifies this
      ensures (var m := Steps(env, Machine(Output(old(macros), [], [], []), true, false, []), lines);
        macros == m.o.macros && emitted == Flush(env, m.o).emitted && tests == m.o.tests)
      ensures Result(macros, emitted, tests) == Outcome(env, old(macros), lines)
      ensures forall bs :: AreBlocks(bs) && AllLines(bs) == lines ==>
                (var o := RunAll(env, Output(old(macros), [], [], []), bs);
                 macros == o.macros && emitted == Flush(env, o).emitted && tests == o.tests)
    {
      var chunk: seq<T>, enable, iftrigger, ifstack: seq<(bool, bool)> := [], true, false, [];
      emitted, tests := [], [];
      ghost var start := Machine(Output(macros, [], [], []), true, false, []);
      for k := 0 to |lines|
        invariant Machine(Output(macros, chunk, emitted, tests), enable, iftrigger, ifstack)
               == Steps(env, start, lines[..k])
      {
        assert lines[..k + 1] == lines[..k] + [lines[k]];
        StepsConcat(env, start, lines[..k], [lines[k]]);
        StepsOne(env, Steps(env, start, lines[..k]), lines[k]);
        match lines[k]
        case Text(tokens) =>
          if enable { chunk := chunk + tokens; }
        case Define(args) =>
          if enable {
            emitted, chunk := emitted + env.expand(macros, chunk), [];
            macros := env.define(macros, args);
          }
        case Undef(args) =>
          if enable {
            emitted, chunk := emitted + env.expand(macros, chunk), [];
            macros := env.undefine(macros, args);
          }
        case If(test) =>
          ifstack := ifstack + [(enable, iftrigger)];
          if enable {
            tests := tests + [(macros, test)];
            if !Holds(env, macros, test) {
              enable, iftrigger := false, false;
            } else {
              iftrigger := true;
            }
          }
        case Elif(expression) =>
          if ifstack != [] {
            if ifstack[|ifstack| - 1].0 {
              if enable {
                enable := false;
              } else if !iftrigger {
                tests := tests + [(macros, IfTrue(expression))];
                if env.evaluate(macros, expression) { enable, iftrigger := true, true; }
              }
            }
          }
        case Else =>
          if ifstack != [] {
            if ifstack[|ifstack| - 1].0 {
              if enable {
                enable := false;
              } else if !iftrigger {
                enable, iftrigger := true, true;
              }
            }
          }
        case Endif =>
          if ifstack != [] {
            enable, iftrigger := ifstack[|ifstack| - 1].0, ifstack[|ifstack| - 1].1;
            ifstack := ifstack[..|ifstack| - 1];
          }
        case Unknown =>
      }
      assert lines[..|lines|] == lines;
      emitted := emitted + env.expand(macros, chunk);
      forall bs | AreBlocks(bs) && AllLines(bs) == lines
        ensures Steps(env, start, lines).o == RunAll(env, start.o, bs)
      {
        EnabledBlocks(env, start, bs);
      }
    }
  }
}
