/** The operator catalogue of each mutation fuzzer and the stacking of several operator
    applications into one candidate (`mutate` and `_create_candidate`'s loop, as a fold). */
module Stacking {
  import opened Outcomes
  import opened PyStrings
  import opened Mutators

  datatype Operator =
    | DeleteChar | ReplaceChar | InsertChar
    | InsertSlash | InsertSpecial | ConcatenateSlash | PlusToSpace
    | ReplaceBody | GenerateHtml

  /** Which of the three mutation fuzzers: MutationFuzzer, UrlFuzzer or HtmlFuzzer. */
  datatype Variant = Plain | Url | Html

  /** The `self.mutators` list of each fuzzer, in its order. */
  function Catalog(v: Variant): (ops: seq<Operator>)
    ensures |ops| > 0
  {
    match v
    case Plain => [DeleteChar, ReplaceChar]
    case Url => [DeleteChar, ReplaceChar, InsertChar, InsertSlash, InsertSpecial, ConcatenateSlash, PlusToSpace]
    case Html => [DeleteChar, ReplaceChar, ReplaceBody, GenerateHtml]
  }

  /** The random draws an operator makes; each operator reads the ones it needs. */
  datatype Draw = Draw(pos: int, code: int, pick: int, letters: string)

  /** The draws lie in the ranges the operator draws them from, for the input `s`. */
  predicate Fits(o: Operator, s: string, d: Draw)
  {
    match o
    case DeleteChar => |s| > 5 ==> 0 <= d.pos <= |s| - 1
    case ReplaceChar => s != [] ==> 0 <= d.pos <= |s| - 1 && Printable(d.code)
    case InsertChar => 0 <= d.pos <= |s| && Printable(d.code)
    case InsertSlash => 0 <= d.pos <= |s|
    case InsertSpecial => 0 <= d.pos <= |s| && 0 <= d.pick < |SpecialCharacters|
    case ConcatenateSlash => 0 <= d.pos <= |s|
    case PlusToSpace => true
    case ReplaceBody => Find(s, BodyOpen) != -1 ==> IsFiller(d.letters)
    case GenerateHtml => true
  }

  /** `mutator(s)` for one operator. `_generate_random_html_content` takes no argument
      besides `self`, so calling it with `s` raises a TypeError. */
  function ApplyOperator(o: Operator, s: string, d: Draw): (r: Result<string>)
    requires Fits(o, s, d)
    ensures r.Failure? <==> o == GenerateHtml
    ensures r.Failure? ==> r.error == WrongArity
  {
    match o
    case DeleteChar => Success(DeleteRandomCharacter(s, d.pos))
    case ReplaceChar => Success(ReplaceRandomCharacter(s, d.pos, d.code))
    case InsertChar => Success(InsertRandomCharacter(s, d.pos, d.code))
    case InsertSlash => Success(InsertRandomSlash(s, d.pos))
    case InsertSpecial => Success(InsertRandomSpecialCharacter(s, d.pos, d.pick))
    case ConcatenateSlash => Success(ConcatenateRandomSlash(s, d.pos))
    case PlusToSpace => Success(MutatePlusToSpace(s))
    case ReplaceBody => Success(ReplaceBodyContent(s, d.letters))
    case GenerateHtml => Failure(WrongArity)
  }

  /** One `mutate` call: the operator index drawn by random.choice, then its own draws. */
  datatype Step = Step(op: int, draw: Draw)

  predicate StepFits(v: Variant, s: string, st: Step)
  {
    0 <= st.op < |Catalog(v)| && Fits(Catalog(v)[st.op], s, st.draw)
  }

  /** `mutate(s)`: only HtmlFuzzer's index 3 fails. */
  function Mutate(v: Variant, s: string, st: Step): (r: Result<string>)
    requires StepFits(v, s, st)
    ensures r.Failure? <==> v == Html && st.op == 3
  {
    ApplyOperator(Catalog(v)[st.op], s, st.draw)
  }

  /** Every step fits the string it is applied to, up to the first failing step. */
  predicate ValidStack(v: Variant, base: string, steps: seq<Step>)
    decreases |steps|
  {
    steps == [] ||
    (StepFits(v, base, steps[0]) &&
     (Mutate(v, base, steps[0]).Success? ==> ValidStack(v, Mutate(v, base, steps[0]).value, steps[1..])))
  }

  /** The candidate after applying `steps` in order, each to the previous result; the first
      failing step ends the stack. */
  function Stack(v: Variant, base: string, steps: seq<Step>): (r: Result<string>)
    requires ValidStack(v, base, steps)
    ensures v != Html ==> r.Success?
    decreases |steps|
  {
    if steps == [] then Success(base)
    else
      match Mutate(v, base, steps[0])
      case Failure(e) => Failure(e)
      case Success(next) => Stack(v, next, steps[1..])
  }

  /** Stacking one more step onto a successful stack applies that step to its result: the
      loop of `_create_candidate` computes the fold. */
  lemma {:induction false} StackSnoc(v: Variant, base: string, steps: seq<Step>, st: Step)
    requires ValidStack(v, base, steps) && Stack(v, base, steps).Success?
    requires StepFits(v, Stack(v, base, steps).value, st)
    ensures ValidStack(v, base, steps + [st])
    ensures Stack(v, base, steps + [st]) == Mutate(v, Stack(v, base, steps).value, st)
    decreases |steps|
  {
    if steps != [] {
      assert (steps + [st])[0] == steps[0];
      assert (steps + [st])[1..] == steps[1..] + [st];
      StackSnoc(v, Mutate(v, base, steps[0]).value, steps[1..], st);
    }
  }

  /** MutationFuzzer only deletes (never below five characters) and replaces, so a stacked
      candidate is at most as long as its base and at least min(|base|, 5) long. */
  lemma {:induction false} PlainStackLength(base: string, steps: seq<Step>)
    requires ValidStack(Plain, base, steps)
    ensures Stack(Plain, base, steps).Success?
    ensures (if |base| < 5 then |base| else 5) <= |Stack(Plain, base, steps).value| <= |base|
    decreases |steps|
  {
    if steps != [] {
      PlainStackLength(Mutate(Plain, base, steps[0]).value, steps[1..]);
    }
  }

  /** Each UrlFuzzer operator changes the length by at most one. */
  lemma UrlStepLength(s: string, st: Step)
    requires StepFits(Url, s, st)
    ensures Mutate(Url, s, st).Success?
    ensures |s| - 1 <= |Mutate(Url, s, st).value| <= |s| + 1
  {
    var o := Catalog(Url)[st.op];
    match o
    case DeleteChar =>
    case ReplaceChar =>
    case InsertChar =>
    case InsertSlash =>
    case InsertSpecial =>
    case ConcatenateSlash =>
    case PlusToSpace =>
  }

  /** So `trials` applications move the length by at most `trials`. */
  lemma {:induction false} UrlStackLength(base: string, steps: seq<Step>)
    requires ValidStack(Url, base, steps)
    ensures Stack(Url, base, steps).Success?
    ensures |base| - |steps| <= |Stack(Url, base, steps).value| <= |base| + |steps|
    decreases |steps|
  {
    if steps != [] {
      UrlStepLength(base, steps[0]);
      UrlStackLength(Mutate(Url, base, steps[0]).value, steps[1..]);
    }
  }

  /** Each inserting UrlFuzzer operator (indices 2 to 5) adds exactly one character. */
  lemma UrlInsertionStep(s: string, st: Step)
    requires StepFits(Url, s, st) && 2 <= st.op <= 5
    ensures Mutate(Url, s, st).Success?
    ensures |Mutate(Url, s, st).value| == |s| + 1
  {
    var o := Catalog(Url)[st.op];
    assert o in {InsertChar, InsertSlash, InsertSpecial, ConcatenateSlash};
  }

  /** With only inserting operators drawn (indices 2 to 5), every application adds exactly
      one character: the stack performs exactly `|steps|` applications. */
  lemma {:induction false} UrlInsertionsCount(base: string, steps: seq<Step>)
    requires ValidStack(Url, base, steps)
    requires forall k :: 0 <= k < |steps| ==> 2 <= steps[k].op <= 5
    ensures Stack(Url, base, steps) == Success(Stack(Url, base, steps).value)
    ensures |Stack(Url, base, steps).value| == |base| + |steps|
    decreases |steps|
  {
    if steps != [] {
      UrlInsertionStep(base, steps[0]);
      assert forall k :: 0 <= k < |steps[1..]| ==> steps[1..][k] == steps[k + 1];
      UrlInsertionsCount(Mutate(Url, base, steps[0]).value, steps[1..]);
    }
  }

  /** An HTML stack fails, with the TypeError, exactly when operator index 3 is drawn. */
  lemma {:induction false} HtmlStackFails(base: string, steps: seq<Step>)
    requires ValidStack(Html, base, steps)
    ensures Stack(Html, base, steps).Failure? <==> exists k :: 0 <= k < |steps| && steps[k].op == 3
    ensures Stack(Html, base, steps).Failure? ==> Stack(Html, base, steps).error == WrongArity
    decreases |steps|
  {
    if steps != [] && steps[0].op != 3 {
      var rest := steps[1..];
      HtmlStackFails(Mutate(Html, base, steps[0]).value, rest);
      if exists k :: 0 <= k < |rest| && rest[k].op == 3 {
        var k :| 0 <= k < |rest| && rest[k].op == 3;
        assert steps[k + 1].op == 3;
      }
      if exists k :: 0 <= k < |steps| && steps[k].op == 3 {
        var k :| 0 <= k < |steps| && steps[k].op == 3;
        assert rest[k - 1].op == 3;
      }
    }
  }
}
