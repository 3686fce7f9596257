/**
 `resolveUblockText` of scripts/fetch-adblock-lists.js: a stack machine over flat lines, with includes.
 What `evaluatePreprocessor`, the URL rules and the network answer is in `Env`.
 */
module Ublock {
  import Text

  datatype Option<+T> = None | Some(value: T)

  datatype Error = ElseWithoutIf | EndIfWithoutIf | Unterminated | TooDeep | OutOfTree | NotFetched

  datatype Result<+T> = Ok(value: T) | Err(error: Error)

  /** `locate(name, base)`: the address of an include, when it is in the directory of the list that asks for it. */
  datatype Env = Env(eval: string -> bool, locate: (string, string) -> Option<string>, fetch: string -> Option<string>)

  const MAX_INCLUDE_DEPTH := 3

  const IF := "!#if "
  const ELSE := "!#else"
  const ENDIF := "!#endif"
  const INCLUDE := "!#include "

  datatype Line = If(cond: bool) | Else | EndIf | Include(name: string) | Plain(text: string)

  /** `rawLine.replace(/\r$/, '')` */
  function Strip(raw: string): string {
    if raw != "" && raw[|raw| - 1] == '\r' then raw[..|raw| - 1] else raw
  }

  function Classify(eval: string -> bool, line: string): Line {
    if IF <= line then If(eval(Text.Trim(line[|IF|..])))
    else if Text.Trim(line) == ELSE then Else
    else if Text.Trim(line) == ENDIF then EndIf
    else if INCLUDE <= line then Include(Text.Trim(line[|INCLUDE|..]))
    else Plain(line)
  }

  function Lines(eval: string -> bool, raws: seq<string>): seq<Line> {
    seq(|raws|, k requires 0 <= k < |raws| => Classify(eval, Strip(raws[k])))
  }

  // ---------------------------------------------------------------- the stack machine

  /** One open `!#if`; `active`: its current branch is live. */
  datatype Frame = Frame(cond: bool, active: bool)

  predicate Live(stack: seq<Frame>) {
    forall k :: 0 <= k < |stack| ==> stack[k].active
  }

  function Prepend(xs: seq<string>, r: Result<seq<string>>): Result<seq<string>> {
    if r.Ok? then Ok(xs + r.value) else r
  }

  lemma PrependNothing(r: Result<seq<string>>)
    ensures Prepend([], r) == r
  {
    if r.Ok? {
      assert [] + r.value == r.value;
    }
  }

  lemma PrependTwice(xs: seq<string>, ys: seq<string>, r: Result<seq<string>>)
    ensures Prepend(xs, Prepend(ys, r)) == Prepend(xs + ys, r)
  {
    if r.Ok? {
      assert xs + (ys + r.value) == xs + ys + r.value;
    }
  }

  function Switch(stack: seq<Frame>): seq<Frame>
    requires stack != []
  {
    stack[|stack| - 1 := stack[|stack| - 1].(active := !stack[|stack| - 1].cond)]
  }

  /** The lines still to come, from a state of the loop on. */
  function Flat(env: Env, url: string, lines: seq<Line>, stack: seq<Frame>, depth: nat): Result<seq<string>>
    requires depth <= MAX_INCLUDE_DEPTH
    decreases MAX_INCLUDE_DEPTH - depth, |lines|
  {
    if lines == [] then (if stack == [] then Ok([]) else Err(Unterminated))
    else
      var line, rest := lines[0], lines[1..];
      match line
      case If(cond) => Flat(env, url, rest, stack + [Frame(cond, cond)], depth)
      case Else => if stack == [] then Err(ElseWithoutIf) else Flat(env, url, rest, Switch(stack), depth)
      case EndIf => if stack == [] then Err(EndIfWithoutIf) else Flat(env, url, rest, stack[..|stack| - 1], depth)
      case _ =>
        if !Live(stack) then Flat(env, url, rest, stack, depth)
        else
          var out := Emit(env, url, line, depth);
          if out.Err? then Err(out.error) else Prepend([out.value], Flat(env, url, rest, stack, depth))
  }

  /** What a live line adds to the output. */
  function Emit(env: Env, url: string, line: Line, depth: nat): Result<string>
    requires depth <= MAX_INCLUDE_DEPTH && (line.Plain? || line.Include?)
    decreases MAX_INCLUDE_DEPTH - depth, 0
  {
    if line.Plain? then Ok(line.text)
    else if depth >= MAX_INCLUDE_DEPTH then Err(TooDeep)
    else
      var where := env.locate(line.name, url);
      if where.None? then Err(OutOfTree)
      else
        var text := env.fetch(where.value);
        if text.None? then Err(NotFetched) else Resolve(env, text.value, where.value, depth + 1)
  }

  function Resolve(env: Env, text: string, url: string, depth: nat): Result<string>
    requires depth <= MAX_INCLUDE_DEPTH
    decreases MAX_INCLUDE_DEPTH - depth, |Text.Split(text, '\n')| + 1
  {
    var out := Flat(env, url, Lines(env.eval, Text.Split(text, '\n')), [], depth);
    if out.Err? then Err(out.error) else Ok(Text.Join(out.value, '\n'))
  }

  /** The loop has put out `out` and stands before line `i`. */
  ghost predicate Stands(
      env: Env, url: string, lines: seq<Line>, depth: nat, i: nat, stack: seq<Frame>, out: seq<string>)
    requires depth <= MAX_INCLUDE_DEPTH && i <= |lines|
  {
    Flat(env, url, lines, [], depth) == Prepend(out, Flat(env, url, lines[i..], stack, depth))
  }

  lemma StandsFirst(env: Env, url: string, lines: seq<Line>, depth: nat)
    requires depth <= MAX_INCLUDE_DEPTH
    ensures Stands(env, url, lines, depth, 0, [], [])
  {
    assert lines[0..] == lines;
    PrependNothing(Flat(env, url, lines, [], depth));
  }

  lemma StandsLast(env: Env, url: string, lines: seq<Line>, depth: nat, stack: seq<Frame>, out: seq<string>)
    requires depth <= MAX_INCLUDE_DEPTH && Stands(env, url, lines, depth, |lines|, stack, out)
    ensures Flat(env, url, lines, [], depth) == if stack == [] then Ok(out) else Err(Unterminated)
  {
    assert lines[|lines|..] == [];
    assert out + [] == out;
  }

  /** One turn of the loop that goes on without output. */
  lemma StandsNext(
      env: Env, url: string, lines: seq<Line>, depth: nat, i: nat, stack: seq<Frame>, out: seq<string>,
      next: seq<Frame>)
    requires depth <= MAX_INCLUDE_DEPTH && i < |lines| && Stands(env, url, lines, depth, i, stack, out)
    requires match lines[i]
             case If(cond) => next == stack + [Frame(cond, cond)]
             case Else => stack != [] && next == Switch(stack)
             case EndIf => stack != [] && next == stack[..|stack| - 1]
             case _ => !Live(stack) && next == stack
    ensures Stands(env, url, lines, depth, i + 1, next, out)
  {
    assert lines[i..][0] == lines[i] && lines[i..][1..] == lines[i + 1..];
  }

  lemma StandsFails(env: Env, url: string, lines: seq<Line>, depth: nat, i: nat, stack: seq<Frame>, out: seq<string>)
    requires depth <= MAX_INCLUDE_DEPTH && i < |lines| && Stands(env, url, lines, depth, i, stack, out)
    requires stack == [] && (lines[i].Else? || lines[i].EndIf?)
    ensures Flat(env, url, lines, [], depth) == Err(if lines[i].Else? then ElseWithoutIf else EndIfWithoutIf)
  {
    assert lines[i..][0] == lines[i];
  }

  lemma StandsEmits(
      env: Env, url: string, lines: seq<Line>, depth: nat, i: nat, stack: seq<Frame>, out: seq<string>,
      piece: Result<string>)
    requires depth <= MAX_INCLUDE_DEPTH && i < |lines| && Stands(env, url, lines, depth, i, stack, out)
    requires Live(stack) && (lines[i].Plain? || lines[i].Include?) && piece == Emit(env, url, lines[i], depth)
    ensures piece.Ok? ==> Stands(env, url, lines, depth, i + 1, stack, out + [piece.value])
    ensures piece.Err? ==> Flat(env, url, lines, [], depth) == Err(piece.error)
  {
    assert lines[i..][0] == lines[i] && lines[i..][1..] == lines[i + 1..];
    if piece.Ok? {
      PrependTwice(out, [piece.value], Flat(env, url, lines[i + 1..], stack, depth));
    }
  }

  method ResolveUblockText(env: Env, text: string, url: string, depth: nat) returns (r: Result<string>)
    requires depth <= MAX_INCLUDE_DEPTH
    ensures r == Resolve(env, text, url, depth)
    decreases MAX_INCLUDE_DEPTH - depth
  {
    var raws := Text.Split(text, '\n');
    ghost var lines := Lines(env.eval, raws);
    var out: seq<string>, stack: seq<Frame> := [], [];
    StandsFirst(env, url, lines, depth);
    for i := 0 to |raws|
      invariant Stands(env, url, lines, depth, i, stack, out)
    {
      var line := Classify(env.eval, Strip(raws[i]));
      if line.If? {
        StandsNext(env, url, lines, depth, i, stack, out, stack + [Frame(line.cond, line.cond)]);
        stack := stack + [Frame(line.cond, line.cond)];
      } else if line.Else? {
        if stack == [] {
          StandsFails(env, url, lines, depth, i, stack, out);
          return Err(ElseWithoutIf);
        }
        StandsNext(env, url, lines, depth, i, stack, out, Switch(stack));
        stack := Switch(stack);
      } else if line.EndIf? {
        if stack == [] {
          StandsFails(env, url, lines, depth, i, stack, out);
          return Err(EndIfWithoutIf);
        }
        StandsNext(env, url, lines, depth, i, stack, out, stack[..|stack| - 1]);
        stack := stack[..|stack| - 1];
      } else if !Live(stack) {
        StandsNext(env, url, lines, depth, i, stack, out, stack);
      } else {
        var piece := EmitLine(env, url, line, depth);
        StandsEmits(env, url, lines, depth, i, stack, out, piece);
        if piece.Err? {
          return Err(piece.error);
        }
        out := out + [piece.value];
      }
    }
    StandsLast(env, url, lines, depth, stack, out);
    if stack != [] {
      return Err(Unterminated);
    }
    return Ok(Text.Join(out, '\n'));
  }

  method EmitLine(env: Env, url: string, line: Line, depth: nat) returns (r: Result<string>)
    requires depth <= MAX_INCLUDE_DEPTH && (line.Plain? || line.Include?)
    ensures r == Emit(env, url, line, depth)
    decreases MAX_INCLUDE_DEPTH - depth, 0
  {
    if line.Plain? {
      return Ok(line.text);
    }
    if depth >= MAX_INCLUDE_DEPTH {
      return Err(TooDeep);
    }
    var where := env.locate(line.name, url);
    if where.None? {
      return Err(OutOfTree);
    }
    var text := env.fetch(where.value);
    if text.None? {
      return Err(NotFetched);
    }
    r := ResolveUblockText(env, text.value, where.value, depth + 1);
  }

  // ---------------------------------------------------------------- nested blocks

  /** A text as nested blocks: a line, or an `!#if` with its branch, any number of `!#else` parts and its `!#endif`. */
  datatype Body = End | Leaf(line: Line, rest: Body) | Block(cond: bool, body: Body, elses: Elses, rest: Body)
  datatype Elses = NoMore | Part(body: Body, more: Elses)

  predicate Proper(b: Body) {
    match b
    case End => true
    case Leaf(line, rest) => (line.Plain? || line.Include?) && Proper(rest)
    case Block(_, body, elses, rest) => Proper(body) && ProperElses(elses) && Proper(rest)
  }

  predicate ProperElses(e: Elses) {
    match e
    case NoMore => true
    case Part(body, more) => Proper(body) && ProperElses(more)
  }

  function Written(b: Body): seq<Line> {
    match b
    case End => []
    case Leaf(line, rest) => [line] + Written(rest)
    case Block(cond, body, elses, rest) =>
      [If(cond)] + (Written(body) + (WrittenElses(elses) + ([EndIf] + Written(rest))))
  }

  function WrittenElses(e: Elses): seq<Line> {
    match e
    case NoMore => []
    case Part(body, more) => [Else] + (Written(body) + WrittenElses(more))
  }

  function Both(a: Result<seq<string>>, b: Result<seq<string>>): Result<seq<string>> {
    if a.Err? then a else Prepend(a.value, b)
  }

  /** What the blocks mean: the branch its condition chooses, with every `!#else` part in the other branch. */
  function Meaning(env: Env, url: string, b: Body, live: bool, depth: nat): Result<seq<string>>
    requires Proper(b) && depth <= MAX_INCLUDE_DEPTH
  {
    match b
    case End => Ok([])
    case Leaf(line, rest) =>
      var out := if live then Emit(env, url, line, depth) else Ok("");
      if out.Err? then Err(out.error)
      else Prepend(if live then [out.value] else [], Meaning(env, url, rest, live, depth))
    case Block(cond, body, elses, rest) =>
      Both(Meaning(env, url, body, live && cond, depth),
           Both(MeaningElses(env, url, elses, live && !cond, depth), Meaning(env, url, rest, live, depth)))
  }

  function MeaningElses(env: Env, url: string, e: Elses, live: bool, depth: nat): Result<seq<string>>
    requires ProperElses(e) && depth <= MAX_INCLUDE_DEPTH
  {
    match e
    case NoMore => Ok([])
    case Part(body, more) => Both(Meaning(env, url, body, live, depth), MeaningElses(env, url, more, live, depth))
  }

  lemma LiveMore(stack: seq<Frame>, f: Frame)
    ensures Live(stack + [f]) <==> Live(stack) && f.active
  {
    assert (stack + [f])[|stack|] == f;
    assert forall k :: 0 <= k < |stack| ==> (stack + [f])[k] == stack[k];
  }

  lemma BothAssociates(a: Result<seq<string>>, b: Result<seq<string>>, c: Result<seq<string>>)
    ensures Both(a, Both(b, c)) == Both(Both(a, b), c)
  {
    if a.Ok? && b.Ok? {
      PrependTwice(a.value, b.value, c);
    }
  }

  lemma BothRegroup(
      a: Result<seq<string>>, b: Result<seq<string>>, c: Result<seq<string>>, d: Result<seq<string>>)
    ensures Both(a, Both(b, Both(c, d))) == Both(Both(a, Both(b, c)), d)
  {
    BothAssociates(b, c, d);
    BothAssociates(a, Both(b, c), d);
  }

  lemma PrependBoth(xs: seq<string>, b: Result<seq<string>>, c: Result<seq<string>>)
    ensures Prepend(xs, Both(b, c)) == Both(Prepend(xs, b), c)
  {
    BothAssociates(Ok(xs), b, c);
  }

  /** The machine reads a whole body, leaves its stack as it was, and has put out what the body means. */
  lemma {:induction false} FlatBody(env: Env, url: string, b: Body, stack: seq<Frame>, more: seq<Line>, depth: nat)
    requires Proper(b) && depth <= MAX_INCLUDE_DEPTH
    ensures Flat(env, url, Written(b) + more, stack, depth)
         == Both(Meaning(env, url, b, Live(stack), depth), Flat(env, url, more, stack, depth))
    decreases b, 1
  {
    match b
    case End =>
      assert Written(b) + more == more;
      PrependNothing(Flat(env, url, more, stack, depth));
    case Leaf(line, rest) => FlatLeaf(env, url, line, rest, stack, more, depth);
    case Block(cond, body, elses, rest) => FlatBlock(env, url, cond, body, elses, rest, stack, more, depth);
  }

  lemma {:induction false} FlatLeaf(
      env: Env, url: string, line: Line, rest: Body, stack: seq<Frame>, more: seq<Line>, depth: nat)
    requires (line.Plain? || line.Include?) && Proper(rest) && depth <= MAX_INCLUDE_DEPTH
    ensures Flat(env, url, Written(Leaf(line, rest)) + more, stack, depth)
         == Both(Meaning(env, url, Leaf(line, rest), Live(stack), depth), Flat(env, url, more, stack, depth))
    decreases Leaf(line, rest), 0
  {
    var all := Written(Leaf(line, rest)) + more;
    assert all[0] == line && all[1..] == Written(rest) + more;
    FlatBody(env, url, rest, stack, more, depth);
    if Live(stack) {
      var out := Emit(env, url, line, depth);
      if out.Ok? {
        PrependBoth([out.value], Meaning(env, url, rest, true, depth), Flat(env, url, more, stack, depth));
      }
    } else {
      PrependNothing(Meaning(env, url, rest, false, depth));
    }
  }

  lemma {:induction false} FlatElses(
      env: Env, url: string, e: Elses, f: Frame, stack: seq<Frame>, tail: seq<Line>, depth: nat)
    requires ProperElses(e) && depth <= MAX_INCLUDE_DEPTH
    ensures Flat(env, url, WrittenElses(e) + ([EndIf] + tail), stack + [f], depth)
         == Both(MeaningElses(env, url, e, Live(stack) && !f.cond, depth), Flat(env, url, tail, stack, depth))
    decreases e
  {
    var all := WrittenElses(e) + ([EndIf] + tail);
    match e
    case NoMore =>
      assert all == [EndIf] + tail && all[0] == EndIf && all[1..] == tail;
      assert (stack + [f])[..|stack|] == stack;
      PrependNothing(Flat(env, url, tail, stack, depth));
    case Part(body, more) =>
      var g := f.(active := !f.cond);
      var next := WrittenElses(more) + ([EndIf] + tail);
      assert all[0] == Else && all[1..] == Written(body) + next;
      assert Switch(stack + [f]) == stack + [g];
      LiveMore(stack, g);
      FlatBody(env, url, body, stack + [g], next, depth);
      FlatElses(env, url, more, g, stack, tail, depth);
      BothAssociates(Meaning(env, url, body, Live(stack) && !f.cond, depth),
        MeaningElses(env, url, more, Live(stack) && !f.cond, depth), Flat(env, url, tail, stack, depth));
  }

  lemma FlatIf(env: Env, url: string, cond: bool, tail: seq<Line>, stack: seq<Frame>, depth: nat)
    requires depth <= MAX_INCLUDE_DEPTH
    ensures Flat(env, url, [If(cond)] + tail, stack, depth) == Flat(env, url, tail, stack + [Frame(cond, cond)], depth)
    ensures Live(stack + [Frame(cond, cond)]) <==> Live(stack) && cond
  {
    assert ([If(cond)] + tail)[1..] == tail;
    LiveMore(stack, Frame(cond, cond));
  }

  lemma WrittenBlock(cond: bool, body: Body, elses: Elses, rest: Body, more: seq<Line>)
    ensures Written(Block(cond, body, elses, rest)) + more
         == [If(cond)] + (Written(body) + (WrittenElses(elses) + ([EndIf] + (Written(rest) + more))))
  {
  }

  lemma {:induction false} FlatBlock(env: Env, url: string, cond: bool, body: Body, elses: Elses, rest: Body,
      stack: seq<Frame>, more: seq<Line>, depth: nat)
    requires Proper(body) && ProperElses(elses) && Proper(rest) && depth <= MAX_INCLUDE_DEPTH
    ensures Flat(env, url, Written(Block(cond, body, elses, rest)) + more, stack, depth)
         == Both(Meaning(env, url, Block(cond, body, elses, rest), Live(stack), depth),
                 Flat(env, url, more, stack, depth))
    decreases Block(cond, body, elses, rest), 0
  {
    var f := Frame(cond, cond);
    var next := WrittenElses(elses) + ([EndIf] + (Written(rest) + more));
    WrittenBlock(cond, body, elses, rest, more);
    FlatIf(env, url, cond, Written(body) + next, stack, depth);
    FlatBody(env, url, body, stack + [f], next, depth);
    FlatElses(env, url, elses, f, stack, Written(rest) + more, depth);
    FlatBody(env, url, rest, stack, more, depth);
    BothRegroup(Meaning(env, url, body, Live(stack) && cond, depth),
      MeaningElses(env, url, elses, Live(stack) && !cond, depth),
      Meaning(env, url, rest, Live(stack), depth), Flat(env, url, more, stack, depth));
  }

  // ---------------------------------------------------------------- balanced texts

  /** Counting the open `!#if`s, starting from `open` of them. */
  predicate Balanced(lines: seq<Line>, open: nat) {
    if lines == [] then open == 0
    else
      match lines[0]
      case If(_) => Balanced(lines[1..], open + 1)
      case Else => open > 0 && Balanced(lines[1..], open)
      case EndIf => open > 0 && Balanced(lines[1..], open - 1)
      case _ => Balanced(lines[1..], open)
  }

  /** What is left behind a body that was read while `open` blocks are open. */
  predicate Rests(tail: seq<Line>, open: nat) {
    Balanced(tail, open) && (tail == [] || (open > 0 && (tail[0].Else? || tail[0].EndIf?)))
  }

  lemma Gather(x: Line, a: seq<Line>, b: seq<Line>, y: Line, c: seq<Line>, tail: seq<Line>)
    ensures [x] + (a + (b + ([y] + (c + tail)))) == [x] + (a + (b + ([y] + c))) + tail
    ensures [x] + (a + (b + tail)) == [x] + (a + b) + tail
    ensures [x] + (a + tail) == [x] + a + tail
  {
  }

  /** Reads a body off the front of a balanced text. */
  lemma {:induction false} TakeBody(lines: seq<Line>, open: nat) returns (b: Body, tail: seq<Line>)
    requires Balanced(lines, open)
    ensures Proper(b) && lines == Written(b) + tail && Rests(tail, open)
    decreases |lines|, 1
  {
    if lines == [] || lines[0].Else? || lines[0].EndIf? {
      b, tail := End, lines;
    } else if lines[0].If? {
      b, tail := TakeBlock(lines, lines[1..], open);
    } else {
      var rest;
      rest, tail := TakeBody(lines[1..], open);
      b := Leaf(lines[0], rest);
      Gather(lines[0], Written(rest), [], EndIf, [], tail);
      assert lines == [lines[0]] + lines[1..];
    }
  }

  lemma {:induction false} TakeBlock(lines: seq<Line>, first: seq<Line>, open: nat) returns (b: Body, tail: seq<Line>)
    requires lines != [] && lines[0].If? && first == lines[1..] && Balanced(first, open + 1)
    ensures Proper(b) && lines == Written(b) + tail && Rests(tail, open)
    decreases |lines|, 0
  {
    var body, second := TakeBody(first, open + 1);
    var elses, third := TakeElses(second, open + 1);
    var fourth := third[1..];
    assert third == [EndIf] + fourth;
    var rest;
    rest, tail := TakeBody(fourth, open);
    b := Block(lines[0].cond, body, elses, rest);
    Gather(lines[0], Written(body), WrittenElses(elses), EndIf, Written(rest), tail);
    assert lines == [lines[0]] + first;
  }

  lemma {:induction false} TakeElses(lines: seq<Line>, open: nat) returns (e: Elses, tail: seq<Line>)
    requires Balanced(lines, open) && open > 0 && lines != [] && (lines[0].Else? || lines[0].EndIf?)
    ensures ProperElses(e) && lines == WrittenElses(e) + tail
    ensures tail != [] && tail[0] == EndIf && Balanced(tail[1..], open - 1)
    decreases |lines|, 0
  {
    if lines[0].EndIf? {
      e, tail := NoMore, lines;
    } else {
      var body, second := TakeBody(lines[1..], open);
      var more;
      more, tail := TakeElses(second, open);
      e := Part(body, more);
      Gather(Else, Written(body), WrittenElses(more), EndIf, [], tail);
      assert lines == [lines[0]] + lines[1..];
    }
  }

  /** Every text that counts out is one of nested blocks, and there are no others. */
  lemma BalancedIsNested(lines: seq<Line>)
    ensures Balanced(lines, 0) <==> exists b :: Proper(b) && Written(b) == lines
  {
    if Balanced(lines, 0) {
      var b, tail := TakeBody(lines, 0);
      assert Written(b) + tail == Written(b);
    }
    forall b | Proper(b) && Written(b) == lines
      ensures Balanced(lines, 0)
    {
      WrittenBalanced(b, [], 0);
      assert Written(b) + [] == lines;
    }
  }

  lemma {:induction false} WrittenBalanced(b: Body, more: seq<Line>, open: nat)
    requires Proper(b)
    ensures Balanced(Written(b) + more, open) == Balanced(more, open)
    decreases b, 1
  {
    var all := Written(b) + more;
    match b
    case End => assert all == more;
    case Leaf(line, rest) =>
      assert all[0] == line && all[1..] == Written(rest) + more;
      WrittenBalanced(rest, more, open);
    case Block(cond, body, elses, rest) => BlockBalanced(cond, body, elses, rest, more, open);
  }

  lemma {:induction false} BlockBalanced(
      cond: bool, body: Body, elses: Elses, rest: Body, more: seq<Line>, open: nat)
    requires Proper(body) && ProperElses(elses) && Proper(rest)
    ensures Balanced(Written(Block(cond, body, elses, rest)) + more, open) == Balanced(more, open)
    decreases Block(cond, body, elses, rest), 0
  {
    var all := Written(Block(cond, body, elses, rest)) + more;
    var tail := Written(rest) + more;
    var next := WrittenElses(elses) + ([EndIf] + tail);
    assert all == [If(cond)] + (Written(body) + next);
    assert all[0] == If(cond) && all[1..] == Written(body) + next;
    WrittenBalanced(body, next, open + 1);
    WrittenElsesBalanced(elses, tail, open);
    WrittenBalanced(rest, more, open);
  }

  lemma {:induction false} WrittenElsesBalanced(e: Elses, tail: seq<Line>, open: nat)
    requires ProperElses(e)
    ensures Balanced(WrittenElses(e) + ([EndIf] + tail), open + 1) == Balanced(tail, open)
    decreases e
  {
    var all := WrittenElses(e) + ([EndIf] + tail);
    match e
    case NoMore => assert all == [EndIf] + tail && all[1..] == tail;
    case Part(body, more) =>
      var next := WrittenElses(more) + ([EndIf] + tail);
      assert all[0] == Else && all[1..] == Written(body) + next;
      WrittenBalanced(body, next, open + 1);
      WrittenElsesBalanced(more, tail, open);
  }

  // ---------------------------------------------------------------- the main results

  /** For a text of nested blocks the machine puts out exactly what structured evaluation does, and fails where it
      fails; a repeated `!#else` stays in the other branch. */
  lemma FlatIsStructured(env: Env, url: string, b: Body, depth: nat)
    requires Proper(b) && depth <= MAX_INCLUDE_DEPTH
    ensures Flat(env, url, Written(b), [], depth) == Meaning(env, url, b, true, depth)
  {
    FlatBody(env, url, b, [], [], depth);
    assert Written(b) + [] == Written(b);
    var m := Meaning(env, url, b, true, depth);
    if m.Ok? {
      assert m.value + [] == m.value;
    }
  }

  /** A text whose directives do not count out fails, whatever the includes answer. */
  lemma {:induction false} UnbalancedFails(env: Env, url: string, lines: seq<Line>, stack: seq<Frame>, depth: nat)
    requires depth <= MAX_INCLUDE_DEPTH && !Balanced(lines, |stack|)
    ensures Flat(env, url, lines, stack, depth).Err?
    decreases |lines|
  {
    if lines != [] {
      var rest := lines[1..];
      match lines[0]
      case If(cond) => UnbalancedFails(env, url, rest, stack + [Frame(cond, cond)], depth);
      case Else => if stack != [] { UnbalancedFails(env, url, rest, Switch(stack), depth); }
      case EndIf => if stack != [] { UnbalancedFails(env, url, rest, stack[..|stack| - 1], depth); }
      case _ => UnbalancedFails(env, url, rest, stack, depth);
    }
  }

  /** The lines in the branches that are chosen. */
  function LiveLines(b: Body): seq<Line>
    requires Proper(b)
  {
    match b
    case End => []
    case Leaf(line, rest) => [line] + LiveLines(rest)
    case Block(cond, body, elses, rest) =>
      (if cond then LiveLines(body) else LiveElses(elses)) + LiveLines(rest)
  }

  function LiveElses(e: Elses): seq<Line>
    requires ProperElses(e)
  {
    match e
    case NoMore => []
    case Part(body, more) => LiveLines(body) + LiveElses(more)
  }

  lemma {:induction false} DeadMeansNothing(env: Env, url: string, b: Body, depth: nat)
    requires Proper(b) && depth <= MAX_INCLUDE_DEPTH
    ensures Meaning(env, url, b, false, depth) == Ok([])
    decreases b
  {
    PrependNothing(Ok([]));
    match b
    case End =>
    case Leaf(_, rest) => DeadMeansNothing(env, url, rest, depth);
    case Block(_, body, elses, rest) =>
      DeadMeansNothing(env, url, body, depth);
      DeadElsesMeanNothing(env, url, elses, depth);
      DeadMeansNothing(env, url, rest, depth);
  }

  lemma {:induction false} DeadElsesMeanNothing(env: Env, url: string, e: Elses, depth: nat)
    requires ProperElses(e) && depth <= MAX_INCLUDE_DEPTH
    ensures MeaningElses(env, url, e, false, depth) == Ok([])
    decreases e
  {
    if e.Part? {
      PrependNothing(Ok([]));
      DeadMeansNothing(env, url, e.body, depth);
      DeadElsesMeanNothing(env, url, e.more, depth);
    }
  }

  ghost predicate SomeFails(env: Env, url: string, lines: seq<Line>, depth: nat)
    requires depth <= MAX_INCLUDE_DEPTH
  {
    exists k :: 0 <= k < |lines| && lines[k].Include? && Emit(env, url, lines[k], depth).Err?
  }

  lemma SomeFailsIn(env: Env, url: string, a: seq<Line>, b: seq<Line>, depth: nat)
    requires depth <= MAX_INCLUDE_DEPTH
    ensures SomeFails(env, url, a + b, depth) <==> SomeFails(env, url, a, depth) || SomeFails(env, url, b, depth)
  {
    var all := a + b;
    if k :| 0 <= k < |a| && a[k].Include? && Emit(env, url, a[k], depth).Err? {
      assert all[k] == a[k];
    }
    if k :| 0 <= k < |b| && b[k].Include? && Emit(env, url, b[k], depth).Err? {
      assert all[|a| + k] == b[k];
    }
  }

  /** Structured evaluation fails exactly when an include in a chosen branch does. */
  lemma {:induction false} MeaningFails(env: Env, url: string, b: Body, depth: nat)
    requires Proper(b) && depth <= MAX_INCLUDE_DEPTH
    ensures Meaning(env, url, b, true, depth).Err? <==> SomeFails(env, url, LiveLines(b), depth)
    decreases b
  {
    match b
    case End =>
    case Leaf(line, rest) =>
      MeaningFails(env, url, rest, depth);
      SomeFailsIn(env, url, [line], LiveLines(rest), depth);
      assert [line][0] == line;
    case Block(cond, body, elses, rest) =>
      MeaningFails(env, url, rest, depth);
      if cond {
        MeaningFails(env, url, body, depth);
        DeadElsesMeanNothing(env, url, elses, depth);
        SomeFailsIn(env, url, LiveLines(body), LiveLines(rest), depth);
      } else {
        ElsesFail(env, url, elses, depth);
        DeadMeansNothing(env, url, body, depth);
        SomeFailsIn(env, url, LiveElses(elses), LiveLines(rest), depth);
      }
  }

  lemma {:induction false} ElsesFail(env: Env, url: string, e: Elses, depth: nat)
    requires ProperElses(e) && depth <= MAX_INCLUDE_DEPTH
    ensures MeaningElses(env, url, e, true, depth).Err? <==> SomeFails(env, url, LiveElses(e), depth)
    decreases e
  {
    if e.Part? {
      MeaningFails(env, url, e.body, depth);
      ElsesFail(env, url, e.more, depth);
      SomeFailsIn(env, url, LiveLines(e.body), LiveElses(e.more), depth);
    }
  }

  /** `b` is what the text says, and an include that it takes fails. */
  ghost predicate FailsAs(env: Env, url: string, lines: seq<Line>, b: Body, depth: nat)
    requires depth <= MAX_INCLUDE_DEPTH
  {
    Proper(b) && Written(b) == lines && SomeFails(env, url, LiveLines(b), depth)
  }

  /** Which texts are rejected: those whose directives do not count out, and those with a failing include in a chosen
      branch. What stands in the other branches makes no difference. */
  lemma RejectsExactly(env: Env, url: string, lines: seq<Line>, depth: nat)
    requires depth <= MAX_INCLUDE_DEPTH
    ensures Flat(env, url, lines, [], depth).Err?
      <==> !Balanced(lines, 0) || exists b :: FailsAs(env, url, lines, b, depth)
  {
    BalancedIsNested(lines);
    if !Balanced(lines, 0) {
      UnbalancedFails(env, url, lines, [], depth);
    } else {
      var b :| Proper(b) && Written(b) == lines;
      FlatIsStructured(env, url, b, depth);
      MeaningFails(env, url, b, depth);
      assert Flat(env, url, lines, [], depth).Err? ==> FailsAs(env, url, lines, b, depth);
      forall c | FailsAs(env, url, lines, c, depth)
        ensures Flat(env, url, lines, [], depth).Err?
      {
        FlatIsStructured(env, url, c, depth);
        MeaningFails(env, url, c, depth);
      }
    }
  }

  function Joined(r: Result<seq<string>>): Result<string> {
    if r.Err? then Err(r.error) else Ok(Text.Join(r.value, '\n'))
  }

  /** For a whole text: if its directives count out, it is the text of some nested blocks, and for any such blocks the
      result is what they mean; otherwise it is rejected. */
  lemma ResolveIsStructured(env: Env, text: string, url: string, depth: nat)
    requires depth <= MAX_INCLUDE_DEPTH
    ensures var lines := Lines(env.eval, Text.Split(text, '\n'));
      && (Balanced(lines, 0) <==> exists b :: Proper(b) && Written(b) == lines)
      && (forall b :: Proper(b) && Written(b) == lines ==>
            Resolve(env, text, url, depth) == Joined(Meaning(env, url, b, true, depth)))
      && (!Balanced(lines, 0) ==> Resolve(env, text, url, depth).Err?)
  {
    var lines := Lines(env.eval, Text.Split(text, '\n'));
    BalancedIsNested(lines);
    forall b | Proper(b) && Written(b) == lines
      ensures Resolve(env, text, url, depth) == Joined(Meaning(env, url, b, true, depth))
    {
      FlatIsStructured(env, url, b, depth);
    }
    if !Balanced(lines, 0) {
      UnbalancedFails(env, url, lines, [], depth);
    }
  }

  // ---------------------------------------------------------------- directives in a text

  // What the lines of a text are, in terms of their characters.

  predicate PlainText(w: string) {
    && !(IF <= w) && !(INCLUDE <= w) && Text.Trim(w) != ELSE && Text.Trim(w) != ENDIF
    && (w != "" ==> w[|w| - 1] != '\r')
  }

  predicate Balances(eval: string -> bool, text: string) {
    Balanced(LinesOf(eval, text), 0)
  }

  lemma ReadsAs(eval: string -> bool, l: string, word: string)
    requires Text.Trim(l) == word && (word == ELSE || word == ENDIF)
    ensures Classify(eval, Strip(l)) == if word == ELSE then Else else EndIf
  {
    StripKeepsTrim(l);
    var s := Strip(l);
    if s != "" && !Text.IsSpace(s[0]) {
      Text.TrimFlush(s);
      assert word[2] == 'e' && word[2] == s[2] && IF[2] == 'i';
    }
  }

  lemma StripKeepsTrim(l: string)
    ensures Text.Trim(Strip(l)) == Text.Trim(l)
  {
    if Strip(l) != l {
      assert l == Strip(l) + ['\r'];
      TrimCarriage(Strip(l));
    }
  }

  lemma StripTail(head: string, c: string)
    requires head != "" && head[|head| - 1] != '\r'
    ensures Strip(head + c) == head + Strip(c)
  {
  }

  lemma ReadsAsIf(eval: string -> bool, c: string)
    ensures Classify(eval, Strip(IF + c)) == If(eval(Text.Trim(c)))
  {
    StripTail(IF, c);
    StripKeepsTrim(c);
    assert (IF + Strip(c))[|IF|..] == Strip(c);
  }

  lemma ReadsAsInclude(eval: string -> bool, n: string)
    ensures Classify(eval, Strip(INCLUDE + n)) == Include(Text.Trim(n))
  {
    StripTail(INCLUDE, n);
    StripKeepsTrim(n);
    var s := INCLUDE + Strip(n);
    assert s[|INCLUDE|..] == Strip(n);
    assert s[0] == '!' && s[1] == '#' && s[2] == 'i' && s[3] == 'n';
    Text.TrimFlush(s);
    assert Text.Trim(s)[0] == '!' && Text.Trim(s) <= s;
    assert Text.Trim(s) != ELSE && Text.Trim(s) != ENDIF by {
      if |Text.Trim(s)| > 2 { assert Text.Trim(s)[2] == s[2]; }
    }
  }

  function LinesOf(eval: string -> bool, text: string): seq<Line> {
    Lines(eval, Text.Split(text, '\n'))
  }

  lemma LinesJoin(eval: string -> bool, a: string, b: string)
    ensures LinesOf(eval, a + ['\n'] + b) == LinesOf(eval, a) + LinesOf(eval, b)
  {
    SplitTwo(a, b);
  }

  lemma LinesOne(eval: string -> bool, l: string)
    requires '\n' !in l
    ensures LinesOf(eval, l) == [Classify(eval, Strip(l))]
  {
    Text.SplitOne(l, '\n');
  }

  /** `!#if c`, a text, `!#else`, a text, `!#endif`. */
  function Conditional(c: string, a: string, other: string, b: string, end: string): string {
    IF + c + ['\n'] + (a + ['\n'] + (other + ['\n'] + (b + ['\n'] + end)))
  }

  lemma ConditionalLines(eval: string -> bool, c: string, a: string, other: string, b: string, end: string)
    requires '\n' !in c && '\n' !in other && '\n' !in end && Text.Trim(other) == ELSE && Text.Trim(end) == ENDIF
    ensures LinesOf(eval, Conditional(c, a, other, b, end))
      == [If(eval(Text.Trim(c)))] + (LinesOf(eval, a) + ([Else] + (LinesOf(eval, b) + [EndIf])))
  {
    LinesJoin(eval, b, end);
    LinesJoin(eval, other, b + ['\n'] + end);
    assert other + ['\n'] + (b + ['\n'] + end) == other + ['\n'] + b + ['\n'] + end;
    LinesJoin(eval, a, other + ['\n'] + (b + ['\n'] + end));
    LinesJoin(eval, IF + c, a + ['\n'] + (other + ['\n'] + (b + ['\n'] + end)));
    LinesOne(eval, IF + c);
    LinesOne(eval, other);
    LinesOne(eval, end);
    ReadsAsIf(eval, c);
    ReadsAs(eval, other, ELSE);
    ReadsAs(eval, end, ENDIF);
  }

  /** A conditional text resolves to what the branch that the condition chooses resolves to. */
  lemma ConditionalText(
      env: Env, c: string, a: string, other: string, b: string, end: string, url: string, depth: nat)
    requires depth <= MAX_INCLUDE_DEPTH && '\n' !in c && '\n' !in other && '\n' !in end
    requires Text.Trim(other) == ELSE && Text.Trim(end) == ENDIF && Balances(env.eval, a) && Balances(env.eval, b)
    ensures Resolve(env, Conditional(c, a, other, b, end), url, depth)
      == if env.eval(Text.Trim(c)) then Resolve(env, a, url, depth) else Resolve(env, b, url, depth)
  {
    var cond := env.eval(Text.Trim(c));
    var x, y := LinesOf(env.eval, a), LinesOf(env.eval, b);
    ConditionalLines(env.eval, c, a, other, b, end);
    BalancedIsNested(x);
    BalancedIsNested(y);
    var p :| Proper(p) && Written(p) == x;
    var q :| Proper(q) && Written(q) == y;
    var whole := Block(cond, p, Part(q, NoMore), End);
    BranchWritten(cond, p, q);
    FlatIsStructured(env, url, whole, depth);
    FlatIsStructured(env, url, p, depth);
    FlatIsStructured(env, url, q, depth);
    BranchMeans(env, url, cond, p, q, depth);
  }

  lemma BranchWritten(cond: bool, p: Body, q: Body)
    ensures Written(Block(cond, p, Part(q, NoMore), End))
      == [If(cond)] + (Written(p) + ([Else] + (Written(q) + [EndIf])))
  {
    assert WrittenElses(Part(q, NoMore)) == [Else] + (Written(q) + []);
    assert Written(q) + [] == Written(q);
    assert [EndIf] + Written(End) == [EndIf];
    assert [Else] + Written(q) + [EndIf] == [Else] + (Written(q) + [EndIf]);
  }

  lemma BranchMeans(env: Env, url: string, cond: bool, p: Body, q: Body, depth: nat)
    requires Proper(p) && Proper(q) && depth <= MAX_INCLUDE_DEPTH
    ensures Proper(End) && ProperElses(Part(q, NoMore))
    ensures Meaning(env, url, Block(cond, p, Part(q, NoMore), End), true, depth)
      == Meaning(env, url, if cond then p else q, true, depth)
  {
    DeadMeansNothing(env, url, if cond then q else p, depth);
    PrependNothing(Ok([]));
    var m := Meaning(env, url, if cond then p else q, true, depth);
    PrependNothing(m);
    BothNothing(m);
    assert Meaning(env, url, End, true, depth) == Ok([]);
    assert MeaningElses(env, url, Part(q, NoMore), !cond, depth) == Both(Meaning(env, url, q, !cond, depth), Ok([]));
  }

  lemma BothNothing(m: Result<seq<string>>)
    ensures Both(m, Ok([])) == m && Both(Ok([]), m) == m
  {
    PrependNothing(m);
    if m.Ok? {
      assert m.value + [] == m.value;
    }
  }

  lemma PlainIsItself(env: Env, w: string, url: string, depth: nat)
    requires depth <= MAX_INCLUDE_DEPTH && '\n' !in w && PlainText(w)
    ensures Balances(env.eval, w) && Resolve(env, w, url, depth) == Ok(w)
  {
    Text.SplitOne(w, '\n');
    assert Lines(env.eval, [w]) == [Plain(w)];
    assert [Plain(w)][1..] == [];
    assert Flat(env, url, [Plain(w)], [], depth) == Prepend([w], Ok([]));
    assert [w] + [] == [w];
  }

  /** For two plain lines, in the plainest layout: the first if the condition holds, the second if it does not. */
  lemma ConditionChooses(env: Env, c: string, w: string, v: string, url: string, depth: nat)
    requires depth <= MAX_INCLUDE_DEPTH && '\n' !in c && '\n' !in w && '\n' !in v && PlainText(w) && PlainText(v)
    ensures Resolve(env, Conditional(c, w, "!#else", v, "!#endif"), url, depth)
      == Ok(if env.eval(Text.Trim(c)) then w else v)
  {
    Text.TrimSolid("!#else");
    Text.TrimSolid("!#endif");
    PlainIsItself(env, w, url, depth);
    PlainIsItself(env, v, url, depth);
    ConditionalText(env, c, w, "!#else", v, "!#endif", url, depth);
  }

  /** An include puts out its list as that resolves at its own address, one level deeper, down to the third. */
  lemma IncludeResolves(env: Env, n: string, url: string, depth: nat)
    requires depth <= 3 && '\n' !in n
    ensures var r := Resolve(env, "!#include " + n, url, depth); var where := env.locate(Text.Trim(n), url);
      if depth == 3 then r == Err(TooDeep)
      else if where.None? then r == Err(OutOfTree)
      else if env.fetch(where.value).None? then r == Err(NotFetched)
      else r == Resolve(env, env.fetch(where.value).value, where.value, depth + 1)
  {
    var line := Include(Text.Trim(n));
    Text.SplitOne(INCLUDE + n, '\n');
    ReadsAsInclude(env.eval, n);
    assert Lines(env.eval, [INCLUDE + n]) == [line];
    assert [line][1..] == [];
    OneLine(env, url, line, depth);
  }

  lemma OneLine(env: Env, url: string, line: Line, depth: nat)
    requires depth <= MAX_INCLUDE_DEPTH && (line.Plain? || line.Include?)
    ensures Flat(env, url, [line], [], depth)
      == var out := Emit(env, url, line, depth); if out.Err? then Err(out.error) else Ok([out.value])
  {
    assert [line][1..] == [];
    var out := Emit(env, url, line, depth);
    if out.Ok? {
      assert [out.value] + [] == [out.value];
    }
  }

  // ---------------------------------------------------------------- what is left in the output

  /** Every line of the text is as `p` says. */
  ghost predicate EveryLine(p: string -> bool, text: string) {
    AllAre(p, Text.Split(text, '\n'))
  }

  ghost predicate AllAre(p: string -> bool, lines: seq<string>) {
    forall line :: line in lines ==> p(line)
  }

  predicate IsPlain(eval: string -> bool, line: string) {
    Classify(eval, line).Plain?
  }

  /** No line of the text is a directive. */
  ghost predicate Resolved(eval: string -> bool, text: string) {
    EveryLine(line => IsPlain(eval, line), text)
  }

  /** The plain lines that the machine takes, here and in the includes that it follows, are as `p` says. */
  ghost predicate Takes(env: Env, p: string -> bool, url: string, lines: seq<Line>, stack: seq<Frame>, depth: nat)
    requires depth <= MAX_INCLUDE_DEPTH
    decreases MAX_INCLUDE_DEPTH - depth, |lines|
  {
    if lines == [] then true
    else
      var line, rest := lines[0], lines[1..];
      match line
      case If(cond) => Takes(env, p, url, rest, stack + [Frame(cond, cond)], depth)
      case Else => stack == [] || Takes(env, p, url, rest, Switch(stack), depth)
      case EndIf => stack == [] || Takes(env, p, url, rest, stack[..|stack| - 1], depth)
      case _ => (Live(stack) ==> TakesLine(env, p, url, line, depth)) && Takes(env, p, url, rest, stack, depth)
  }

  ghost predicate TakesLine(env: Env, p: string -> bool, url: string, line: Line, depth: nat)
    requires depth <= MAX_INCLUDE_DEPTH && (line.Plain? || line.Include?)
    decreases MAX_INCLUDE_DEPTH - depth, 0
  {
    if line.Plain? then p(line.text)
    else
      var where := env.locate(line.name, url);
      depth < MAX_INCLUDE_DEPTH && where.Some? && env.fetch(where.value).Some? ==>
        TextTakes(env, p, env.fetch(where.value).value, where.value, depth + 1)
  }

  ghost predicate TextTakes(env: Env, p: string -> bool, text: string, url: string, depth: nat)
    requires depth <= MAX_INCLUDE_DEPTH
    decreases MAX_INCLUDE_DEPTH - depth, |Text.Split(text, '\n')| + 1
  {
    Takes(env, p, url, Lines(env.eval, Text.Split(text, '\n')), [], depth)
  }

  /** The plain lines of the text, taken or not, are as `p` says. */
  ghost predicate Gives(eval: string -> bool, p: string -> bool, text: string) {
    AllGive(p, Lines(eval, Text.Split(text, '\n')))
  }

  ghost predicate AllGive(p: string -> bool, lines: seq<Line>) {
    forall line :: line in lines && line.Plain? ==> p(line.text)
  }

  ghost predicate AllTextsGive(env: Env, p: string -> bool) {
    forall url :: env.fetch(url).Some? ==> Gives(env.eval, p, env.fetch(url).value)
  }

  lemma SplitStep(s: string, first: seq<string>, more: seq<string>)
    requires s != "" && first != [] && Text.Split(s[1..], '\n') == first + more
    ensures Text.Split(s, '\n')
      == (if s[0] == '\n' then [""] + first else [[s[0]] + first[0]] + first[1..]) + more
  {
    assert (first + more)[0] == first[0] && (first + more)[1..] == first[1..] + more;
  }

  lemma {:induction false} SplitTwo(a: string, b: string)
    ensures Text.Split(a + ['\n'] + b, '\n') == Text.Split(a, '\n') + Text.Split(b, '\n')
  {
    var s := a + ['\n'] + b;
    if a == "" {
      assert s[1..] == b;
    } else {
      SplitTwo(a[1..], b);
      assert s[0] == a[0] && s[1..] == a[1..] + ['\n'] + b;
      SplitStep(s, Text.Split(a[1..], '\n'), Text.Split(b, '\n'));
    }
  }

  ghost predicate AllPieces(p: string -> bool, pieces: seq<string>) {
    forall piece :: piece in pieces ==> EveryLine(p, piece)
  }

  lemma AllPiecesIn(p: string -> bool, first: string, more: seq<string>)
    ensures AllPieces(p, [first] + more) <==> EveryLine(p, first) && AllPieces(p, more)
  {
    assert first in [first] + more;
    assert forall piece :: piece in more ==> piece in [first] + more;
  }

  lemma AllAreIn(p: string -> bool, a: seq<string>, b: seq<string>)
    ensures AllAre(p, a + b) <==> AllAre(p, a) && AllAre(p, b)
  {
    assert forall line :: line in a || line in b ==> line in a + b;
  }

  /** The lines of a joined text are the lines of its pieces; a piece may have many. */
  lemma {:induction false} JoinKeeps(p: string -> bool, pieces: seq<string>)
    requires p("")
    ensures EveryLine(p, Text.Join(pieces, '\n')) <==> AllPieces(p, pieces)
  {
    if pieces != [] {
      var first, more := pieces[0], pieces[1..];
      assert pieces == [first] + more;
      AllPiecesIn(p, first, more);
      if more != [] {
        JoinKeeps(p, more);
        SplitTwo(first, Text.Join(more, '\n'));
        AllAreIn(p, Text.Split(first, '\n'), Text.Split(Text.Join(more, '\n'), '\n'));
      }
    }
  }

  /** A line of a text holds no line break. */
  ghost predicate Unbroken(lines: seq<Line>) {
    forall line :: line in lines && line.Plain? ==> '\n' !in line.text
  }

  lemma {:induction false} FlatTakes(
      env: Env, p: string -> bool, url: string, lines: seq<Line>, stack: seq<Frame>, depth: nat)
    requires depth <= MAX_INCLUDE_DEPTH && p("") && Unbroken(lines) && Flat(env, url, lines, stack, depth).Ok?
    ensures AllPieces(p, Flat(env, url, lines, stack, depth).value) <==> Takes(env, p, url, lines, stack, depth)
    decreases MAX_INCLUDE_DEPTH - depth, 1, |lines|
  {
    if lines != [] {
      var line, rest := lines[0], lines[1..];
      assert line in lines;
      match line
      case If(cond) => FlatTakes(env, p, url, rest, stack + [Frame(cond, cond)], depth);
      case Else => FlatTakes(env, p, url, rest, Switch(stack), depth);
      case EndIf => FlatTakes(env, p, url, rest, stack[..|stack| - 1], depth);
      case _ =>
        FlatTakes(env, p, url, rest, stack, depth);
        if Live(stack) {
          EmitTakes(env, p, url, line, depth);
          AllPiecesIn(p, Emit(env, url, line, depth).value, Flat(env, url, rest, stack, depth).value);
        }
    }
  }

  lemma {:induction false} EmitTakes(env: Env, p: string -> bool, url: string, line: Line, depth: nat)
    requires depth <= MAX_INCLUDE_DEPTH && p("")
    requires (line.Plain? || line.Include?) && Emit(env, url, line, depth).Ok?
    requires line.Plain? ==> '\n' !in line.text
    ensures EveryLine(p, Emit(env, url, line, depth).value) <==> TakesLine(env, p, url, line, depth)
    decreases MAX_INCLUDE_DEPTH - depth, 0, 0
  {
    if line.Plain? {
      Text.SplitOne(line.text, '\n');
      assert line.text in [line.text];
    } else {
      var where := env.locate(line.name, url).value;
      OutputIsTaken(env, p, env.fetch(where).value, where, depth + 1);
    }
  }

  lemma StrippedFree(raw: string)
    requires '\n' !in raw
    ensures '\n' !in Strip(raw)
  {
  }

  lemma LinesUnbroken(eval: string -> bool, raws: seq<string>)
    requires Text.Free(raws, '\n')
    ensures Unbroken(Lines(eval, raws))
  {
    forall line | line in Lines(eval, raws) && line.Plain?
      ensures '\n' !in line.text
    {
      var k :| 0 <= k < |raws| && Lines(eval, raws)[k] == line;
      assert raws[k] in raws;
      StrippedFree(raws[k]);
    }
  }

  /** The lines that come out are the plain lines taken, from however deep an include. */
  lemma {:induction false} OutputIsTaken(env: Env, p: string -> bool, text: string, url: string, depth: nat)
    requires depth <= MAX_INCLUDE_DEPTH && p("") && Resolve(env, text, url, depth).Ok?
    ensures EveryLine(p, Resolve(env, text, url, depth).value) <==> TextTakes(env, p, text, url, depth)
    decreases MAX_INCLUDE_DEPTH - depth, 2, 0
  {
    var lines := Lines(env.eval, Text.Split(text, '\n'));
    Text.SplitFree(text, '\n');
    LinesUnbroken(env.eval, Text.Split(text, '\n'));
    FlatTakes(env, p, url, lines, [], depth);
    JoinKeeps(p, Flat(env, url, lines, [], depth).value);
  }

  /** What holds of all plain lines holds of those taken. */
  lemma {:induction false} GivenIsTaken(
      env: Env, p: string -> bool, url: string, lines: seq<Line>, stack: seq<Frame>, depth: nat)
    requires depth <= MAX_INCLUDE_DEPTH && AllGive(p, lines) && AllTextsGive(env, p)
    ensures Takes(env, p, url, lines, stack, depth)
    decreases MAX_INCLUDE_DEPTH - depth, |lines|
  {
    if lines != [] {
      var line, rest := lines[0], lines[1..];
      assert line in lines;
      match line
      case If(cond) => GivenIsTaken(env, p, url, rest, stack + [Frame(cond, cond)], depth);
      case Else => if stack != [] { GivenIsTaken(env, p, url, rest, Switch(stack), depth); }
      case EndIf => if stack != [] { GivenIsTaken(env, p, url, rest, stack[..|stack| - 1], depth); }
      case Plain(_) => GivenIsTaken(env, p, url, rest, stack, depth);
      case Include(name) =>
        GivenIsTaken(env, p, url, rest, stack, depth);
        if depth < MAX_INCLUDE_DEPTH {
          var where := env.locate(name, url);
          if where.Some? && env.fetch(where.value).Some? {
            var included := Lines(env.eval, Text.Split(env.fetch(where.value).value, '\n'));
            GivenIsTaken(env, p, where.value, included, [], depth + 1);
          }
        }
    }
  }

  lemma LinesArePlain(eval: string -> bool, raws: seq<string>)
    ensures AllGive(line => IsPlain(eval, line), Lines(eval, raws))
  {
  }

  /** Whatever was included, and however deep, no directive is left in what comes out. */
  lemma OutputHasNoDirective(env: Env, text: string, url: string, depth: nat)
    requires depth <= MAX_INCLUDE_DEPTH && Resolve(env, text, url, depth).Ok?
    ensures Resolved(env.eval, Resolve(env, text, url, depth).value)
  {
    var p := line => IsPlain(env.eval, line);
    assert Text.Trim("") == "";
    forall u | env.fetch(u).Some? ensures Gives(env.eval, p, env.fetch(u).value) {
      LinesArePlain(env.eval, Text.Split(env.fetch(u).value, '\n'));
    }
    LinesArePlain(env.eval, Text.Split(text, '\n'));
    GivenIsTaken(env, p, url, Lines(env.eval, Text.Split(text, '\n')), [], depth);
    OutputIsTaken(env, p, text, url, depth);
  }

  // ---------------------------------------------------------------- resolving again

  function StripAll(raws: seq<string>): seq<string> {
    seq(|raws|, k requires 0 <= k < |raws| => Strip(raws[k]))
  }

  lemma {:induction false} PlainLinesFlat(env: Env, url: string, lines: seq<Line>, texts: seq<string>, depth: nat)
    requires depth <= MAX_INCLUDE_DEPTH && |lines| == |texts|
    requires forall k :: 0 <= k < |lines| ==> lines[k] == Plain(texts[k])
    ensures Flat(env, url, lines, [], depth) == Ok(texts)
    decreases |lines|
  {
    if lines != [] {
      PlainLinesFlat(env, url, lines[1..], texts[1..], depth);
      assert texts == [texts[0]] + texts[1..];
    }
  }

  lemma {:induction false} TrimEndCarriage(s: string)
    ensures Text.TrimEnd(s + ['\r']) == Text.TrimEnd(s)
  {
    assert (s + ['\r'])[..|s|] == s;
  }

  lemma {:induction false} TrimCarriage(s: string)
    ensures Text.Trim(s + ['\r']) == Text.Trim(s)
  {
    if s == "" {
      assert ['\r'][1..] == "";
      assert Text.TrimStart(['\r']) == "";
    } else if Text.IsSpace(s[0]) {
      TrimCarriage(s[1..]);
      assert (s + ['\r'])[1..] == s[1..] + ['\r'];
    } else {
      TrimEndCarriage(s);
    }
  }

  /** A plain line is still plain without its carriage return. */
  lemma StrippedIsPlain(eval: string -> bool, line: string)
    requires IsPlain(eval, line)
    ensures Classify(eval, Strip(line)) == Plain(Strip(line))
  {
    var s := Strip(line);
    assert s <= line;
    if s != line {
      assert line == s + ['\r'];
      TrimCarriage(s);
    }
  }

  lemma JoinApart(a: seq<string>, b: seq<string>)
    requires a != [] && b != [] && Text.Free(a, '\n') && Text.Free(b, '\n')
    ensures Text.Join(a, '\n') == Text.Join(b, '\n') <==> a == b
  {
    Text.SplitJoin(a, '\n');
    Text.SplitJoin(b, '\n');
  }

  lemma ResolvedAgain(env: Env, text: string, url: string, depth: nat)
    requires depth <= MAX_INCLUDE_DEPTH && Resolved(env.eval, text)
    ensures Resolve(env, text, url, depth) == Ok(Text.Join(StripAll(Text.Split(text, '\n')), '\n'))
  {
    var raws := Text.Split(text, '\n');
    var lines := Lines(env.eval, raws);
    forall k | 0 <= k < |raws|
      ensures lines[k] == Plain(StripAll(raws)[k])
    {
      assert raws[k] in raws;
      StrippedIsPlain(env.eval, raws[k]);
    }
    PlainLinesFlat(env, url, lines, StripAll(raws), depth);
  }

  predicate NoReturn(line: string) {
    Strip(line) == line
  }

  lemma SameUnlessReturn(env: Env, text: string, url: string, depth: nat)
    requires depth <= MAX_INCLUDE_DEPTH && Resolved(env.eval, text)
    ensures Resolve(env, text, url, depth) == Ok(text) <==> EveryLine(NoReturn, text)
  {
    var raws := Text.Split(text, '\n');
    ResolvedAgain(env, text, url, depth);
    Text.SplitFree(text, '\n');
    Text.JoinSplit(text, '\n');
    forall piece | piece in StripAll(raws) ensures '\n' !in piece {
      var k :| 0 <= k < |raws| && StripAll(raws)[k] == piece;
      assert raws[k] in raws;
      StrippedFree(raws[k]);
    }
    JoinApart(StripAll(raws), raws);
    if k :| 0 <= k < |raws| && !NoReturn(raws[k]) {
      assert raws[k] in raws && StripAll(raws)[k] != raws[k];
    } else {
      assert forall k :: 0 <= k < |raws| ==> NoReturn(raws[k]);
      assert StripAll(raws) == raws;
    }
  }

  /** Resolving the output once more changes nothing exactly when no plain line taken from the text and its includes
      still ends with a carriage return after it has lost one. */
  lemma ResolvingAgainIsIdentity(env: Env, text: string, url: string, depth: nat, again: nat)
    requires depth <= MAX_INCLUDE_DEPTH && again <= MAX_INCLUDE_DEPTH && Resolve(env, text, url, depth).Ok?
    ensures var out := Resolve(env, text, url, depth).value;
      Resolve(env, out, url, again) == Ok(out) <==> TextTakes(env, NoReturn, text, url, depth)
  {
    OutputHasNoDirective(env, text, url, depth);
    SameUnlessReturn(env, Resolve(env, text, url, depth).value, url, again);
    OutputIsTaken(env, NoReturn, text, url, depth);
  }

  /** No line of the text ends with two carriage returns. */
  ghost predicate SingleReturns(text: string) {
    forall raw :: raw in Text.Split(text, '\n') ==> NoReturn(Strip(raw))
  }

  lemma SingleReturnsGive(eval: string -> bool, text: string)
    requires SingleReturns(text)
    ensures Gives(eval, NoReturn, text)
  {
    var raws := Text.Split(text, '\n');
    forall line | line in Lines(eval, raws) && line.Plain? ensures NoReturn(line.text) {
      var k :| 0 <= k < |raws| && Lines(eval, raws)[k] == line;
      assert raws[k] in raws;
    }
  }

  /** So when no line of the text, or of a text that can be fetched, ends with two carriage returns, resolving again
      changes nothing. */
  lemma SingleReturnsGiveIdentity(env: Env, text: string, url: string, depth: nat, again: nat)
    requires depth <= MAX_INCLUDE_DEPTH && again <= MAX_INCLUDE_DEPTH && Resolve(env, text, url, depth).Ok?
    requires SingleReturns(text) && forall u :: env.fetch(u).Some? ==> SingleReturns(env.fetch(u).value)
    ensures Resolve(env, Resolve(env, text, url, depth).value, url, again) == Resolve(env, text, url, depth)
  {
    forall u | env.fetch(u).Some? ensures Gives(env.eval, NoReturn, env.fetch(u).value) {
      SingleReturnsGive(env.eval, env.fetch(u).value);
    }
    SingleReturnsGive(env.eval, text);
    GivenIsTaken(env, NoReturn, url, Lines(env.eval, Text.Split(text, '\n')), [], depth);
    ResolvingAgainIsIdentity(env, text, url, depth, again);
  }

  lemma OnePlainLine(env: Env, line: string, url: string, depth: nat)
    requires depth <= MAX_INCLUDE_DEPTH && '\n' !in line && Classify(env.eval, Strip(line)).Plain?
    ensures Resolve(env, line, url, depth) == Ok(Strip(line))
  {
    Text.SplitOne(line, '\n');
    assert Lines(env.eval, [line]) == [Plain(Strip(line))];
    PlainLinesFlat(env, url, [Plain(Strip(line))], [Strip(line)], depth);
  }

  /** A line that ends with two carriage returns loses one each time. */
  lemma TwoReturnsLoseOneEachTime(env: Env, url: string, depth: nat)
    requires depth <= MAX_INCLUDE_DEPTH
    ensures Resolve(env, "a\r\r", url, depth) == Ok("a\r") && Resolve(env, "a\r", url, depth) == Ok("a")
  {
    var two, one := "a\r\r", "a\r";
    assert Strip(two) == one && Strip(one) == "a";
    Text.TrimFlush(one);
    Text.TrimFlush("a");
    OnePlainLine(env, two, url, depth);
    OnePlainLine(env, one, url, depth);
  }

  // ---------------------------------------------------------------- the depth of includes

  /** A list that includes itself is refused: the chain of includes is never followed past its limit. */
  lemma {:induction false} SelfIncludeRefused(env: Env, url: string, name: string, lines: seq<Line>, depth: nat)
    requires depth <= MAX_INCLUDE_DEPTH && env.locate(name, url) == Some(url) && env.fetch(url).Some?
    requires lines == Lines(env.eval, Text.Split(env.fetch(url).value, '\n'))
    requires lines != [] && lines[0] == Include(name)
    ensures Flat(env, url, lines, [], depth) == Err(TooDeep)
    decreases MAX_INCLUDE_DEPTH - depth
  {
    assert Live([]);
    if depth < MAX_INCLUDE_DEPTH {
      SelfIncludeRefused(env, url, name, lines, depth + 1);
      assert Resolve(env, env.fetch(url).value, url, depth + 1) == Err(TooDeep);
      assert Emit(env, url, lines[0], depth) == Err(TooDeep);
    } else {
      assert Emit(env, url, lines[0], depth) == Err(TooDeep);
    }
  }

  ghost predicate SameExceptFetch(env: Env, other: Env) {
    env.eval == other.eval && env.locate == other.locate
  }

  /** At the limit nothing is fetched: what the network would answer makes no difference. */
  lemma {:induction false} LimitFetchesNothing(env: Env, other: Env, url: string, lines: seq<Line>, stack: seq<Frame>)
    requires SameExceptFetch(env, other)
    ensures Flat(env, url, lines, stack, MAX_INCLUDE_DEPTH) == Flat(other, url, lines, stack, MAX_INCLUDE_DEPTH)
    decreases |lines|
  {
    if lines != [] {
      var rest := lines[1..];
      match lines[0]
      case If(cond) => LimitFetchesNothing(env, other, url, rest, stack + [Frame(cond, cond)]);
      case Else => if stack != [] { LimitFetchesNothing(env, other, url, rest, Switch(stack)); }
      case EndIf => if stack != [] { LimitFetchesNothing(env, other, url, rest, stack[..|stack| - 1]); }
      case _ => LimitFetchesNothing(env, other, url, rest, stack);
    }
  }
}
