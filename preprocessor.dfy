/**
 * The conditional-compilation filter that sits between the tokenizer and
 * the decomp reader: it passes tokens through, drops the ones inside a
 * failed `#if`/`#ifdef`/`#ifndef`, and records `#define`/`#undef`.
 */
module Preprocessor {
  import opened Wrappers
  import opened Tokens

  /** What the filter is doing with the next ordinary token. */
  datatype Mode =
    | Waiting       // no directive pending: pass through
    | Collect       // store tokens up to the end of the directive's line
    | Allow         // the condition at this level held: pass through
    | Delay         // waiting for `#else`, `#elif` or `#endif`
    | DelayCollect  // collecting an `#elif` condition
    | Finished      // a branch was taken: waiting for `#endif`

  predicate Passing(m: Mode) { m == Waiting || m == Allow }
  predicate Collecting(m: Mode) { m == Collect || m == DelayCollect }

  /**
   * The generator's locals: the nesting depth, the defined names, the
   * depths whose directive was acted on, the pending directive, the mode
   * and the tokens collected for it.
   */
  datatype PpState = PpState(
    level: int,
    context: map<string, bool>,
    stack: seq<int>,
    directive: string,
    mode: Mode,
    pending: seq<Token>)

  const Initial := PpState(0, map[], [], "", Waiting, [])

  /** One step, or a whole run: the new state, the tokens yielded and the exception raised. */
  datatype PpRun = PpRun(after: PpState, out: seq<Token>, error: Option<Error>)

  /**
   * The value of a condition: true when its first token is the literal
   * `1`; a condition without tokens raises.
   */
  function Evaluate(ts: seq<Token>): (r: Option<bool>)
    ensures r.Some? <==> |ts| > 0
    ensures r.Some? ==> (r.value <==> ts[0].value == "1")
  {
    if ts == [] then None else Some(ts[0].value == "1")
  }

  /** `0` is false and `1` is true. */
  lemma EvaluateBasic()
    ensures Evaluate([Token(Const, 1, "0", NoNote)]) == Some(false)
    ensures Evaluate([Token(Const, 1, "1", NoNote)]) == Some(true)
  {
  }

  /** The end of a directive's line: act on the directive with the collected tokens. */
  function EndOfDirective(s: PpState): PpRun {
    if s.directive == "#if" then
      match Evaluate(s.pending)
      case None => PpRun(s, [], Some(IndexError))
      case Some(b) => PpRun(s.(mode := if b then Allow else Delay, pending := []), [], None)
    else if s.pending == [] then PpRun(s, [], Some(IndexError))
    else
      var variable := s.pending[0].value;
      var s' :=
        if s.directive == "#define" then s.(context := s.context[variable := s.pending[0].value == "1"])
        else if s.directive == "#undef" then s.(context := s.context - {variable})
        else if s.directive == "#ifdef" then s.(mode := if variable in s.context then Allow else Delay)
        else if s.directive == "#ifndef" then s.(mode := if variable !in s.context then Allow else Delay)
        else s;
      PpRun(s'.(pending := []), [], None)
  }

  /** An ordinary token: pass it, collect it, end a directive with it, or drop it. */
  function PlainToken(s: PpState, t: Token): PpRun {
    if Passing(s.mode) then PpRun(s, [t], None)
    else if Collecting(s.mode) then
      if t.kind == Newline then EndOfDirective(s)
      else PpRun(s.(pending := s.pending + [t]), [], None)
    else PpRun(s, [], None)
  }

  /** True when the innermost acted-on depth is the current one. */
  predicate TopIs(stack: seq<int>, level: int) {
    |stack| > 0 && stack[|stack| - 1] == level
  }

  /** `#endif` as written: the depth drops first and the stack top is compared with the new depth. */
  function Endif(s: PpState): PpRun {
    var level := s.level - 1;
    if level < 0 then PpRun(s.(level := level), [], Some(AssertionError))
    else if TopIs(s.stack, level) then
      PpRun(s.(level := level, stack := s.stack[..|s.stack| - 1], mode := Allow), [], None)
    else PpRun(s.(level := level), [], None)
  }

  /** A directive token. */
  function DirectiveToken(s: PpState, t: Token): PpRun {
    var d := t.value;
    if d == "#define" || d == "#undef" then
      PpRun(if Passing(s.mode) then s.(directive := d, mode := Collect) else s, [], None)
    else if d == "#ifdef" || d == "#ifndef" || d == "#if" then
      var level := s.level + 1;
      PpRun(if Passing(s.mode) then s.(level := level, stack := s.stack + [level], directive := d, mode := Collect)
            else s.(level := level), [], None)
    else if d == "#elif" then
      if TopIs(s.stack, s.level) then
        PpRun(s.(directive := "#if",
                 mode := if s.mode == Allow then Finished else if s.mode == Delay then DelayCollect else s.mode), [], None)
      else PpRun(s, [], None)
    else if d == "#else" then
      if TopIs(s.stack, s.level) then
        PpRun(s.(mode := if s.mode == Allow then Finished else if s.mode == Delay then Allow else s.mode), [], None)
      else PpRun(s, [], None)
    else if d == "#endif" then Endif(s)
    else PpRun(s, [], None)
  }

  /** One token of input, as written. */
  function Step(s: PpState, t: Token): PpRun {
    if t.kind != Preprocessor then PlainToken(s, t) else DirectiveToken(s, t)
  }

  /** A step's output followed by the rest of the run. */
  function Glue(out: seq<Token>, rest: PpRun): PpRun {
    PpRun(rest.after, out + rest.out, rest.error)
  }

  /** Feeds the tokens one by one to a step function, stopping at the first exception. */
  function Drive(step: (PpState, Token) -> PpRun, s: PpState, ts: seq<Token>): PpRun
    decreases |ts|
  {
    if ts == [] then PpRun(s, [], None)
    else
      var r := step(s, ts[0]);
      if r.error.Some? then r else Glue(r.out, Drive(step, r.after, ts[1..]))
  }

  /** The whole input, as written: the tokens yielded up to the first exception. */
  function Run(s: PpState, ts: seq<Token>): PpRun {
    Drive(Step, s, ts)
  }

  /** Running a concatenation runs the first part and then the second from where it stopped. */
  lemma {:induction false} DriveAppend(step: (PpState, Token) -> PpRun, s: PpState, a: seq<Token>, b: seq<Token>)
    requires Drive(step, s, a).error.None?
    ensures Drive(step, s, a + b) == Glue(Drive(step, s, a).out, Drive(step, Drive(step, s, a).after, b))
    decreases |a|
  {
    if a == [] {
      assert a + b == b;
    } else {
      assert (a + b)[0] == a[0] && (a + b)[1..] == a[1..] + b;
      DriveAppend(step, step(s, a[0]).after, a[1..], b);
    }
  }

  /** Running one token is one step. */
  lemma DriveOne(step: (PpState, Token) -> PpRun, s: PpState, t: Token, ts: seq<Token>)
    ensures Drive(step, s, [t] + ts) ==
      (if step(s, t).error.Some? then step(s, t) else Glue(step(s, t).out, Drive(step, step(s, t).after, ts)))
  {
    assert ([t] + ts)[0] == t && ([t] + ts)[1..] == ts;
  }

  /** The generator, run to its end or to the exception it raises. */
  method Preprocess(tokens: seq<Token>) returns (out: seq<Token>, err: Option<Error>)
    ensures out == Run(Initial, tokens).out
    ensures err == Run(Initial, tokens).error
  {
    var frame := Initial;
    out := [];
    err := None;
    var i := 0;
    assert tokens[i..] == tokens;
    assert out + Run(Initial, tokens).out == Run(Initial, tokens).out;
    while i < |tokens|
      invariant 0 <= i <= |tokens|
      invariant Run(Initial, tokens) == Glue(out, Run(frame, tokens[i..]))
    {
      var token := tokens[i];
      ghost var before := frame;
      var yielded: seq<Token> := [];
      var e: Option<Error>;
      if token.kind != Preprocessor {
        frame, yielded, e := OrdinaryToken(frame, token);
      } else {
        frame, e := Directive(frame, token);
      }
      RunAdvance(before, tokens, i, out, Run(Initial, tokens));
      if e.Some? {
        err := e;
        return;
      }
      out := out + yielded;
      i := i + 1;
    }
    assert tokens[i..] == [];
  }

  /** One step of the run: an exception ends it with what was yielded so far, otherwise the rest goes on. */
  lemma RunAdvance(s: PpState, ts: seq<Token>, i: nat, out: seq<Token>, all: PpRun)
    requires i < |ts| && all == Glue(out, Run(s, ts[i..]))
    ensures Step(s, ts[i]).error.Some? ==> all.out == out + Step(s, ts[i]).out && all.error == Step(s, ts[i]).error
    ensures Step(s, ts[i]).error.None? ==>
      all == Glue(out + Step(s, ts[i]).out, Run(Step(s, ts[i]).after, ts[i + 1..]))
  {
    assert ts[i..] == [ts[i]] + ts[i + 1..];
    DriveOne(Step, s, ts[i], ts[i + 1..]);
    var r := Step(s, ts[i]);
    if r.error.None? {
      var rest := Run(r.after, ts[i + 1..]);
      assert out + (r.out + rest.out) == (out + r.out) + rest.out;
    }
  }

  /** An ordinary token: yield it, collect it, act on a directive at the line's end, or drop it. */
  method OrdinaryToken(s: PpState, token: Token) returns (s': PpState, yielded: seq<Token>, err: Option<Error>)
    requires token.kind != Preprocessor
    ensures PpRun(s', yielded, err) == Step(s, token)
  {
    s', yielded, err := s, [], None;
    if s.mode == Waiting || s.mode == Allow {
      yielded := [token];
    } else if s.mode == Collect || s.mode == DelayCollect {
      if token.kind == Newline {
        if s.directive == "#if" {
          var value := Evaluate(s.pending);
          if value.None? {
            return s, [], Some(IndexError);
          }
          s' := s'.(mode := if value.value then Allow else Delay);
        } else {
          if s.pending == [] {
            return s, [], Some(IndexError);
          }
          var variable := s.pending[0].value;
          if s.directive == "#define" {
            s' := s'.(context := s.context[variable := Evaluate(s.pending).value]);
          } else if s.directive == "#undef" {
            s' := s'.(context := s.context - {variable});
          } else if s.directive == "#ifdef" {
            s' := s'.(mode := if variable in s.context then Allow else Delay);
          } else if s.directive == "#ifndef" {
            s' := s'.(mode := if variable !in s.context then Allow else Delay);
          }
        }
        s' := s'.(pending := []);
      } else {
        s' := s'.(pending := s.pending + [token]);
      }
    }
  }

  /** A directive token: open, switch or close a conditional, or start collecting a definition. */
  method Directive(s: PpState, token: Token) returns (s': PpState, err: Option<Error>)
    requires token.kind == Preprocessor
    ensures PpRun(s', [], err) == Step(s, token)
  {
    s', err := s, None;
    if token.value == "#define" || token.value == "#undef" {
      if s.mode == Waiting || s.mode == Allow {
        s' := s'.(directive := token.value, mode := Collect);
      }
    } else if token.value == "#ifdef" || token.value == "#ifndef" || token.value == "#if" {
      s' := s'.(level := s.level + 1);
      if s.mode == Waiting || s.mode == Allow {
        s' := s'.(stack := s.stack + [s'.level], directive := token.value, mode := Collect);
      }
    } else if token.value == "#elif" {
      if |s.stack| > 0 && s.stack[|s.stack| - 1] == s.level {
        s' := s'.(directive := "#if");
        if s.mode == Allow {
          s' := s'.(mode := Finished);
        } else if s.mode == Delay {
          s' := s'.(mode := DelayCollect);
        }
      }
    } else if token.value == "#else" {
      if |s.stack| > 0 && s.stack[|s.stack| - 1] == s.level {
        if s.mode == Allow {
          s' := s'.(mode := Finished);
        } else if s.mode == Delay {
          s' := s'.(mode := Allow);
        }
      }
    } else if token.value == "#endif" {
      s' := s'.(level := s.level - 1);
      if s'.level < 0 {
        return s', Some(AssertionError);
      }
      if |s.stack| > 0 && s.stack[|s.stack| - 1] == s'.level {
        s' := s'.(stack := s.stack[..|s.stack| - 1], mode := Allow);
      }
    }
  }

  // ---------------------------------------------------------------------
  // Properties of the filter as written
  // ---------------------------------------------------------------------

  /** The depth never goes below zero (the `#endif` assertion) and acted-on depths are positive. */
  predicate Inv(s: PpState) {
    && s.level >= 0
    && (forall i :: 0 <= i < |s.stack| ==> s.stack[i] >= 1)
  }

  lemma StepKeepsInv(s: PpState, t: Token)
    requires Inv(s)
    ensures Step(s, t).error.None? ==> Inv(Step(s, t).after)
  {
  }

  /** A run that does not raise keeps the depth non-negative. */
  lemma {:induction false} RunKeepsInv(s: PpState, ts: seq<Token>)
    requires Inv(s)
    ensures Run(s, ts).error.None? ==> Inv(Run(s, ts).after)
    decreases |ts|
  {
    if ts != [] {
      StepKeepsInv(s, ts[0]);
      assert ts == [ts[0]] + ts[1..];
      DriveOne(Step, s, ts[0], ts[1..]);
      if Step(s, ts[0]).error.None? {
        RunKeepsInv(Step(s, ts[0]).after, ts[1..]);
      }
    }
  }

  /** Every yielded token is an ordinary token of the input. */
  lemma {:induction false} RunYieldsInput(s: PpState, ts: seq<Token>)
    ensures forall x :: x in Run(s, ts).out ==> x in ts && x.kind != Preprocessor
    ensures |Run(s, ts).out| <= |ts|
    decreases |ts|
  {
    if ts != [] {
      var r := Step(s, ts[0]);
      assert r.out == [] || (r.out == [ts[0]] && ts[0].kind != Preprocessor);
      assert ts == [ts[0]] + ts[1..];
      DriveOne(Step, s, ts[0], ts[1..]);
      if r.error.None? {
        RunYieldsInput(r.after, ts[1..]);
        assert forall x :: x in ts[1..] ==> x in ts;
      }
    }
  }

  /** Outside any failed condition, ordinary tokens other than line ends pass through untouched. */
  lemma {:induction false} PassingRunYieldsAll(s: PpState, ts: seq<Token>)
    requires Passing(s.mode)
    requires forall i :: 0 <= i < |ts| ==> ts[i].kind != Preprocessor
    ensures Run(s, ts) == PpRun(s, ts, None)
    decreases |ts|
  {
    if ts != [] {
      PassingRunYieldsAll(s, ts[1..]);
      assert ts == [ts[0]] + ts[1..];
      DriveOne(Step, s, ts[0], ts[1..]);
    }
  }

  /** Inside a failed condition, ordinary tokens are dropped and nothing changes. */
  lemma {:induction false} DelayedRunYieldsNothing(s: PpState, ts: seq<Token>)
    requires s.mode == Delay || s.mode == Finished
    requires forall i :: 0 <= i < |ts| ==> ts[i].kind != Preprocessor
    ensures Run(s, ts) == PpRun(s, [], None)
    decreases |ts|
  {
    if ts != [] {
      DelayedRunYieldsNothing(s, ts[1..]);
      assert ts == [ts[0]] + ts[1..];
      DriveOne(Step, s, ts[0], ts[1..]);
    }
  }

  function Pp(d: string): Token { Token(Preprocessor, 1, d, NoNote) }
  function Word(v: string): Token { Token(Identifier, 1, v, NoNote) }
  const Nl := Token(Newline, 1, "\n", NoNote)

  /** The start of a conditional block on a name: the directive, the name, the end of the line. */
  function Opening(d: string, name: string): seq<Token> { [Pp(d), Word(name), Nl] }

  /** Three steps run in turn. */
  lemma DriveThree(step: (PpState, Token) -> PpRun, s: PpState, t1: Token, t2: Token, t3: Token)
    requires step(s, t1).error.None?
    requires step(step(s, t1).after, t2).error.None?
    ensures var r1 := step(s, t1); var r2 := step(r1.after, t2); var r3 := step(r2.after, t3);
      Drive(step, s, [t1, t2, t3]) == PpRun(r3.after, r1.out + r2.out + r3.out, r3.error)
  {
    var r1 := step(s, t1);
    var r2 := step(r1.after, t2);
    assert [t1, t2, t3] == [t1] + [t2, t3] && [t2, t3] == [t2] + [t3] && [t3] == [t3] + [];
    DriveOne(step, s, t1, [t2, t3]);
    DriveOne(step, r1.after, t2, [t3]);
    DriveOne(step, r2.after, t3, []);
    var r3 := step(r2.after, t3);
    assert r3.out + [] == r3.out;
  }

  /** An `#ifdef`/`#ifndef` line on a name, read from a passing mode. */
  lemma OpeningRun(s: PpState, d: string, name: string)
    requires Passing(s.mode) && s.pending == []
    requires d == "#ifdef" || d == "#ifndef"
    ensures Run(s, Opening(d, name)) ==
      PpRun(s.(level := s.level + 1, stack := s.stack + [s.level + 1], directive := d,
               mode := if (name in s.context) == (d == "#ifdef") then Allow else Delay),
            [], None)
  {
    DriveThree(Step, s, Pp(d), Word(name), Nl);
  }

  /**
   * `#ifndef NAME` with NAME undefined keeps its body, from any passing
   * state such as the initial one.
   */
  lemma IfndefKeepsBody(s: PpState, name: string, body: seq<Token>)
    requires Passing(s.mode) && s.pending == [] && name !in s.context
    requires forall i :: 0 <= i < |body| ==> body[i].kind != Preprocessor
    ensures Run(s, Opening("#ifndef", name) + body + [Pp("#endif")]).out == body
  {
    var open := Opening("#ifndef", name);
    var s1 := s.(level := s.level + 1, stack := s.stack + [s.level + 1], directive := "#ifndef", mode := Allow);
    assert Run(s, open + body) == PpRun(s1, body, None) by {
      OpeningRun(s, "#ifndef", name);
      PassingRunYieldsAll(s1, body);
      DriveAppend(Step, s, open, body);
    }
    assert Run(s1, [Pp("#endif")]).out == [] by {
      DriveOne(Step, s1, Pp("#endif"), []);
    }
    DriveAppend(Step, s, open + body, [Pp("#endif")]);
  }

  /**
   * `#ifdef NAME` with NAME undefined drops its body, from any passing
   * state such as the initial one.
   */
  lemma IfdefDropsBody(s: PpState, name: string, body: seq<Token>)
    requires Passing(s.mode) && s.pending == [] && name !in s.context
    requires forall i :: 0 <= i < |body| ==> body[i].kind != Preprocessor
    ensures Run(s, Opening("#ifdef", name) + body + [Pp("#endif")]).out == []
  {
    var open := Opening("#ifdef", name);
    var s1 := s.(level := s.level + 1, stack := s.stack + [s.level + 1], directive := "#ifdef", mode := Delay);
    assert Run(s, open + body) == PpRun(s1, [], None) by {
      OpeningRun(s, "#ifdef", name);
      DelayedRunYieldsNothing(s1, body);
      DriveAppend(Step, s, open, body);
    }
    assert Run(s1, [Pp("#endif")]).out == [] by {
      DriveOne(Step, s1, Pp("#endif"), []);
    }
    DriveAppend(Step, s, open + body, [Pp("#endif")]);
  }

  // ---------------------------------------------------------------------
  // Findings
  // ---------------------------------------------------------------------

  /**
   * As written, a failed `#ifdef` block never ends: the token after its
   * `#endif` is still dropped.
   */
  lemma EndifNeverClosesFailedBlock()
    ensures Run(Initial, Opening("#ifdef", "XYZ") + [Pp("#endif"), Word("after")]).out == []
  {
    var open := Opening("#ifdef", "XYZ");
    var s1 := Initial.(level := 1, stack := [1], directive := "#ifdef", mode := Delay);
    var s2 := s1.(level := 0);
    assert Run(Initial, open) == PpRun(s1, [], None) by {
      OpeningRun(Initial, "#ifdef", "XYZ");
    }
    assert Run(s2, [Word("after")]) == PpRun(s2, [], None) by {
      DriveOne(Step, s2, Word("after"), []);
    }
    assert Run(s1, [Pp("#endif"), Word("after")]) == PpRun(s2, [], None) by {
      assert Step(s1, Pp("#endif")) == PpRun(s2, [], None);
      DriveOne(Step, s1, Pp("#endif"), [Word("after")]);
    }
    DriveAppend(Step, Initial, open, [Pp("#endif"), Word("after")]);
  }

  /**
   * As written, after `#define` the filter keeps collecting: nothing that
   * follows is ever yielded.
   */
  lemma DefineStopsOutput()
    ensures Run(Initial, [Pp("#define"), Word("X"), Nl, Word("after")]).out == []
  {
    var line := [Pp("#define"), Word("X"), Nl];
    DriveThree(Step, Initial, Pp("#define"), Word("X"), Nl);
    var s1 := Run(Initial, line).after;
    assert s1.mode == Collect;
    DriveOne(Step, s1, Word("after"), []);
    DriveAppend(Step, Initial, line, [Word("after")]);
    assert line + [Word("after")] == [Pp("#define"), Word("X"), Nl, Word("after")];
  }

  /** `#endif` as intended: compare the stack top with the depth being closed, then drop the depth. */
  function EndifFixed(s: PpState): PpRun {
    var level := s.level - 1;
    if level < 0 then PpRun(s.(level := level), [], Some(AssertionError))
    else if TopIs(s.stack, s.level) then
      PpRun(s.(level := level, stack := s.stack[..|s.stack| - 1], mode := Allow), [], None)
    else PpRun(s.(level := level), [], None)
  }

  /** One token, as intended: `#define`/`#undef` return to passing mode at the end of their line. */
  function StepFixed(s: PpState, t: Token): PpRun {
    if t.kind == Preprocessor && t.value == "#endif" then EndifFixed(s)
    else
      var r := Step(s, t);
      if t.kind == Newline && Collecting(s.mode) && (s.directive == "#define" || s.directive == "#undef")
         && r.error.None?
      then r.(after := r.after.(mode := Allow))
      else r
  }

  /** The whole input, as intended. */
  function RunFixed(s: PpState, ts: seq<Token>): PpRun {
    Drive(StepFixed, s, ts)
  }

  /** As intended, the acted-on depths increase strictly and never exceed the current depth. */
  predicate InvFixed(s: PpState) {
    && s.level >= 0
    && (forall i :: 0 <= i < |s.stack| ==> 1 <= s.stack[i] <= s.level)
    && (forall i, j :: 0 <= i < j < |s.stack| ==> s.stack[i] < s.stack[j])
  }

  lemma StepFixedKeepsInv(s: PpState, t: Token)
    requires InvFixed(s)
    ensures StepFixed(s, t).error.None? ==> InvFixed(StepFixed(s, t).after)
  {
    if t.kind == Preprocessor && t.value in {"#ifdef", "#ifndef", "#if"} && Passing(s.mode) {
      var st := s.stack + [s.level + 1];
      forall i, j | 0 <= i < j < |st| ensures st[i] < st[j] {
        if j == |st| - 1 {
          assert st[i] == s.stack[i];
        }
      }
    } else if t.kind == Preprocessor && t.value == "#endif" && s.level >= 1 && |s.stack| > 0 && !TopIs(s.stack, s.level) {
      forall i | 0 <= i < |s.stack| ensures s.stack[i] <= s.level - 1 {
        assert s.stack[i] <= s.stack[|s.stack| - 1] || i == |s.stack| - 1;
      }
    }
  }

  /** As intended, a run that does not raise keeps the stack of depths well formed. */
  lemma {:induction false} RunFixedKeepsInv(s: PpState, ts: seq<Token>)
    requires InvFixed(s)
    ensures RunFixed(s, ts).error.None? ==> InvFixed(RunFixed(s, ts).after)
    decreases |ts|
  {
    if ts != [] {
      StepFixedKeepsInv(s, ts[0]);
      assert ts == [ts[0]] + ts[1..];
      DriveOne(StepFixed, s, ts[0], ts[1..]);
      if StepFixed(s, ts[0]).error.None? {
        RunFixedKeepsInv(StepFixed(s, ts[0]).after, ts[1..]);
      }
    }
  }

  /** As written, the stack repeats a depth once an `#ifndef` block has closed. */
  lemma StackRepeatsDepth()
    ensures Run(Initial, Opening("#ifndef", "A") + [Pp("#endif")] + Opening("#ifndef", "B")).after.stack == [1, 1]
  {
    OpeningRun(Initial, "#ifndef", "A");
    var s1 := Run(Initial, Opening("#ifndef", "A")).after;
    var s2 := Step(s1, Pp("#endif")).after;
    assert s2.stack == [1] && s2.level == 0 && s2.mode == Allow && s2.pending == [];
    DriveOne(Step, s1, Pp("#endif"), []);
    DriveAppend(Step, Initial, Opening("#ifndef", "A"), [Pp("#endif")]);
    OpeningRun(s2, "#ifndef", "B");
    DriveAppend(Step, Initial, Opening("#ifndef", "A") + [Pp("#endif")], Opening("#ifndef", "B"));
  }

  lemma {:induction false} RunFixedPlain(s: PpState, ts: seq<Token>)
    requires forall i :: 0 <= i < |ts| ==> ts[i].kind != Preprocessor
    requires Passing(s.mode) || s.mode == Delay || s.mode == Finished
    ensures RunFixed(s, ts) == PpRun(s, if Passing(s.mode) then ts else [], None)
    decreases |ts|
  {
    if ts != [] {
      RunFixedPlain(s, ts[1..]);
      assert ts == [ts[0]] + ts[1..];
      DriveOne(StepFixed, s, ts[0], ts[1..]);
    }
  }

  /**
   * As intended, a complete `#ifdef`/`#ifndef` block yields its body
   * exactly when the condition holds, and afterwards the filter passes
   * tokens again at the depth and with the stack it started from.
   */
  lemma BlockIsBalanced(s: PpState, d: string, name: string, body: seq<Token>)
    requires Passing(s.mode) && s.pending == [] && s.level >= 0
    requires d == "#ifdef" || d == "#ifndef"
    requires forall i :: 0 <= i < |body| ==> body[i].kind != Preprocessor
    ensures var r := RunFixed(s, Opening(d, name) + body + [Pp("#endif")]);
      && r.error.None?
      && r.after.mode == Allow
      && r.after.level == s.level
      && r.after.stack == s.stack
      && r.out == (if (name in s.context) == (d == "#ifdef") then body else [])
  {
    var open := Opening(d, name);
    var kept := if (name in s.context) == (d == "#ifdef") then body else [];
    var s1 := s.(level := s.level + 1, stack := s.stack + [s.level + 1], directive := d,
                 mode := if (name in s.context) == (d == "#ifdef") then Allow else Delay);
    var s2 := s1.(level := s.level, stack := s.stack, mode := Allow);
    assert RunFixed(s, open + body) == PpRun(s1, kept, None) by {
      OpeningRunFixed(s, d, name);
      RunFixedPlain(s1, body);
      DriveAppend(StepFixed, s, open, body);
    }
    assert RunFixed(s1, [Pp("#endif")]) == PpRun(s2, [], None) by {
      EndifFixedCloses(s1);
      assert (s.stack + [s.level + 1])[..|s.stack|] == s.stack;
      DriveOne(StepFixed, s1, Pp("#endif"), []);
    }
    DriveAppend(StepFixed, s, open + body, [Pp("#endif")]);
    assert kept + [] == kept;
  }

  lemma OpeningRunFixed(s: PpState, d: string, name: string)
    requires Passing(s.mode) && s.pending == []
    requires d == "#ifdef" || d == "#ifndef"
    ensures RunFixed(s, Opening(d, name)) ==
      PpRun(s.(level := s.level + 1, stack := s.stack + [s.level + 1], directive := d,
               mode := if (name in s.context) == (d == "#ifdef") then Allow else Delay),
            [], None)
  {
    DriveThree(StepFixed, s, Pp(d), Word(name), Nl);
  }

  /** As intended, `#endif` closes the block whose depth is on top of the stack. */
  lemma EndifFixedCloses(s: PpState)
    requires TopIs(s.stack, s.level) && s.level >= 1
    ensures StepFixed(s, Pp("#endif")) ==
      PpRun(s.(level := s.level - 1, stack := s.stack[..|s.stack| - 1], mode := Allow), [], None)
  {
  }

  /** As intended, `#define NAME` records the name and output resumes after its line. */
  lemma DefineResumesOutput(s: PpState, name: string, after: seq<Token>)
    requires Passing(s.mode) && s.pending == []
    requires forall i :: 0 <= i < |after| ==> after[i].kind != Preprocessor
    ensures var r := RunFixed(s, [Pp("#define"), Word(name), Nl] + after);
      && r.error.None?
      && name in r.after.context
      && r.out == after
  {
    var line := [Pp("#define"), Word(name), Nl];
    DriveThree(StepFixed, s, Pp("#define"), Word(name), Nl);
    var s1 := RunFixed(s, line).after;
    assert s1.mode == Allow && name in s1.context;
    RunFixedPlain(s1, after);
    DriveAppend(StepFixed, s, line, after);
  }
}
