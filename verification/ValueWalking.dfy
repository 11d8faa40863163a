/** The recursive check of one value text. */
module ValueWalking {
  // It speaks up only where the engine's parser is certain to refuse; silence is no promise that it accepts.

  import opened Text
  import opened ConfigString

  datatype Refusal =
    | InString(reason: StringProblem)
    | EmptyValue
    | CannotBegin(c: char)
    | LoneSigil(c: char)
    | UnknownName(word: string)
    | ElementSeparator(c: char)
    | KeySeparator(c: char)
    | PairSeparator(c: char)

  /** Where a walk stands and the first problem it met. */
  datatype Walk = Walk(at: nat, problem: Option<Refusal>)

  predicate CannotBeginValue(c: char) {
    c == ')' || c == ']' || c == '}' || c == ',' || c == ':' || c == '('
  }

  predicate EndsBare(c: char) {
    IsSpace(c) || c == ',' || c == ':' || c == ')' || c == ']' || c == '}'
  }

  function WordEnd(text: string, at: nat): (end: nat)
    requires at <= |text|
    ensures at <= end <= |text|
    ensures forall i :: at <= i < end ==> IsIdentifierChar(text[i])
    ensures end < |text| ==> !IsIdentifierChar(text[end])
    decreases |text| - at
  {
    if at < |text| && IsIdentifierChar(text[at]) then WordEnd(text, at + 1) else at
  }

  function BareEnd(text: string, at: nat): (end: nat)
    requires at <= |text|
    ensures at <= end <= |text|
    ensures forall i :: at <= i < end ==> !EndsBare(text[i])
    ensures end < |text| ==> EndsBare(text[end])
    decreases |text| - at
  {
    if at < |text| && !EndsBare(text[at]) then BareEnd(text, at + 1) else at
  }

  function SkipString(text: string, at: nat, problem: Option<Refusal>): (w: Walk)
    requires at < |text|
    ensures at < w.at <= |text|
  {
    var d := DecodeText(text, at + 1);
    Walk(d.end, if problem.None? && d.problem.Some? then Some(InString(d.problem.value)) else problem)
  }

  function SkipBalanced(text: string, at: nat, depth: int, problem: Option<Refusal>): (w: Walk)
    requires at <= |text|
    ensures at <= w.at <= |text|
    decreases |text| - at
  {
    if at >= |text| then Walk(at, problem)
    else if text[at] == '"' then
      var s := SkipString(text, at, problem);
      SkipBalanced(text, s.at, depth, s.problem)
    else if IsOpen(text[at]) then SkipBalanced(text, at + 1, depth + 1, problem)
    else if IsClose(text[at]) then
      if depth - 1 <= 0 then Walk(at + 1, problem) else SkipBalanced(text, at + 1, depth - 1, problem)
    else SkipBalanced(text, at + 1, depth, problem)
  }

  predicate At(text: string, at: nat, c: char) {
    at < |text| && text[at] == c
  }

  function WalkName(text: string, at: nat): (w: Walk)
    requires at < |text|
    ensures at <= w.at <= |text|
  {
    var afterWord := WordEnd(text, at);
    var next := NextNonSpace(text, afterWord, |text|);
    if At(text, next, '[') then
      var types := SkipBalanced(text, next, 0, None);
      var call := NextNonSpace(text, types.at, |text|);
      if At(text, call, '(') then SkipBalanced(text, call, 0, types.problem) else Walk(call, types.problem)
    else if At(text, next, '(') then SkipBalanced(text, next, 0, None)
    else if IsValueKeyword(text[at..afterWord]) then Walk(afterWord, None)
    else Walk(afterWord, Some(UnknownName(text[at..afterWord])))
  }

  function WalkValue(text: string, start: nat, depth: nat): (w: Walk)
    requires start <= |text|
    ensures start <= w.at <= |text|
    decreases |text| - start, 1
  {
    if depth > 32 then Walk(|text|, None)
    else
      var at := NextNonSpace(text, start, |text|);
      if at >= |text| then Walk(at, Some(EmptyValue))
      else
        var c := text[at];
        if CannotBeginValue(c) then Walk(at, Some(CannotBegin(c)))
        else if c == '"' then SkipString(text, at, None)
        else if c == '&' || c == '@' then
          if At(text, at + 1, '"') then SkipString(text, at + 1, None) else Walk(at + 1, Some(LoneSigil(c)))
        else if IsIdentifierStart(c) then WalkName(text, at)
        else if c == '[' then WalkElements(text, at + 1, depth)
        else if c == '{' then WalkPairs(text, at + 1, depth)
        else Walk(BareEnd(text, at), None)
  }

  /** The array loop from just past its bracket or a comma. */
  function WalkElements(text: string, start: nat, depth: nat): (w: Walk)
    requires start <= |text|
    ensures start <= w.at <= |text|
    decreases |text| - start, 2
  {
    var at := NextNonSpace(text, start, |text|);
    if at >= |text| then Walk(at, None)
    else if text[at] == ']' then Walk(at + 1, None)
    else
      var element := WalkValue(text, at, depth + 1);
      if element.problem.Some? then element else WalkAfterElement(text, element.at, depth)
  }

  function WalkAfterElement(text: string, start: nat, depth: nat): (w: Walk)
    requires start <= |text|
    ensures start <= w.at <= |text|
    decreases |text| - start, 0
  {
    var after := NextNonSpace(text, start, |text|);
    if after >= |text| then Walk(after, None)
    else if text[after] == ',' then WalkElements(text, after + 1, depth)
    else if text[after] == ']' then Walk(after + 1, None)
    else Walk(after, Some(ElementSeparator(text[after])))
  }

  /** The dictionary loop from just past its bracket or a comma. */
  function WalkPairs(text: string, start: nat, depth: nat): (w: Walk)
    requires start <= |text|
    ensures start <= w.at <= |text|
    decreases |text| - start, 2
  {
    var at := NextNonSpace(text, start, |text|);
    if at >= |text| then Walk(at, None)
    else if text[at] == '}' then Walk(at + 1, None)
    else
      var key := WalkValue(text, at, depth + 1);
      if key.problem.Some? then key else WalkAfterKey(text, key.at, depth)
  }

  function WalkAfterKey(text: string, start: nat, depth: nat): (w: Walk)
    requires start <= |text|
    ensures start <= w.at <= |text|
    decreases |text| - start, 1
  {
    var colon := NextNonSpace(text, start, |text|);
    if colon >= |text| then Walk(colon, None)
    else if text[colon] != ':' then Walk(colon, Some(KeySeparator(text[colon])))
    else
      var value := WalkValue(text, colon + 1, depth + 1);
      if value.problem.Some? then value else WalkAfterPair(text, value.at, depth)
  }

  function WalkAfterPair(text: string, start: nat, depth: nat): (w: Walk)
    requires start <= |text|
    ensures start <= w.at <= |text|
    decreases |text| - start, 0
  {
    var after := NextNonSpace(text, start, |text|);
    if after >= |text| then Walk(after, None)
    else if text[after] == ',' then WalkPairs(text, after + 1, depth)
    else if text[after] == '}' then Walk(after + 1, None)
    else Walk(after, Some(PairSeparator(text[after])))
  }

  /** The walk with its position and its first problem kept in place. */
  class ValueWalk {
    const text: string
    var at: nat
    var problem: Option<Refusal>

    ghost predicate Valid()
      reads this
    {
      at <= |text|
    }

    function State(): Walk
      reads this
    {
      Walk(at, problem)
    }

    constructor (text: string)
      ensures Valid() && this.text == text && at == 0 && problem == None
    {
      this.text := text;
      at := 0;
      problem := None;
    }

    predicate Done()
      reads this
    {
      at >= |text|
    }

    function Peek(): char
      reads this
    {
      if at < |text| then text[at] else '\0'
    }

    method SkipSpace()
      requires Valid()
      modifies this`at
      ensures Valid() && at == NextNonSpace(text, old(at), |text|)
    {
      at := FindNonSpace(text, at, |text|);
    }

    method Refuse(reason: Refusal)
      modifies this`problem
      ensures problem == if old(problem).None? then Some(reason) else old(problem)
    {
      if problem.None? {
        problem := Some(reason);
      }
    }

    method SkipOverString()
      requires Valid() && !Done()
      modifies this
      ensures Valid() && State() == SkipString(text, old(at), old(problem))
    {
      var decoded := DecodeString(text, at + 1);
      if decoded.problem.Some? {
        Refuse(InString(decoded.problem.value));
      }
      at := decoded.end;
    }

    method SkipOverBrackets()
      requires Valid()
      modifies this
      ensures Valid() && State() == SkipBalanced(text, old(at), 0, old(problem))
    {
      var depth := 0;
      while at < |text|
        invariant Valid()
        invariant SkipBalanced(text, at, depth, problem) == SkipBalanced(text, old(at), 0, old(problem))
        decreases |text| - at
      {
        var character := text[at];
        if character == '"' {
          SkipOverString();
          continue;
        }
        if IsOpen(character) {
          depth := depth + 1;
        }
        if IsClose(character) {
          depth := depth - 1;
          if depth <= 0 {
            at := at + 1;
            return;
          }
        }
        at := at + 1;
      }
    }

    method ReadName()
      requires Valid() && !Done() && problem.None?
      modifies this
      ensures Valid() && State() == WalkName(text, old(at))
    {
      var start := at;
      while at < |text| && IsIdentifierChar(text[at])
        invariant start <= at <= |text| && WordEnd(text, start) == WordEnd(text, at)
        invariant problem.None?
        decreases |text| - at
      {
        at := at + 1;
      }
      var word := text[start..at];
      var afterWord := at;
      SkipSpace();
      if Peek() == '[' {
        SkipOverBrackets();
        SkipSpace();
        if Peek() == '(' {
          SkipOverBrackets();
        }
        return;
      }
      if Peek() == '(' {
        SkipOverBrackets();
        return;
      }
      at := afterWord;
      if IsValueKeyword(word) { return; }
      Refuse(UnknownName(word));
    }

    method ReadValue(depth: nat)
      requires Valid()
      modifies this
      ensures Valid() && at >= old(at)
      ensures old(problem).Some? ==> State() == old(State())
      ensures old(problem).None? ==> State() == WalkValue(text, old(at), depth)
      decreases |text| - at, 1
    {
      if problem.Some? { return; }
      if depth > 32 {
        at := |text|;
        return;
      }
      ghost var start := at;
      SkipSpace();
      if Done() {
        Refuse(EmptyValue);
        return;
      }
      var character := Peek();
      if CannotBeginValue(character) {
        Refuse(CannotBegin(character));
        return;
      }
      if character == '"' {
        SkipOverString();
        return;
      }
      if character == '&' || character == '@' {
        at := at + 1;
        if Peek() != '"' {
          Refuse(LoneSigil(character));
          return;
        }
        SkipOverString();
        return;
      }
      if IsIdentifierStart(character) {
        ReadName();
        return;
      }
      if character == '[' {
        ReadArray(depth);
        return;
      }
      if character == '{' {
        ReadDictionary(depth);
        return;
      }
      ghost var first := at;
      while at < |text| && !EndsBare(text[at])
        invariant first <= at <= |text| && BareEnd(text, first) == BareEnd(text, at)
        invariant problem.None?
        decreases |text| - at
      {
        at := at + 1;
      }
    }

    method ReadArray(depth: nat)
      requires Valid() && !Done() && problem.None?
      modifies this
      ensures Valid() && State() == WalkElements(text, old(at) + 1, depth)
      decreases |text| - at, 0
    {
      hide WalkElements;
      at := at + 1;
      ghost var goal := WalkElements(text, at, depth);
      var more := true;
      while more
        invariant Valid() && at > old(at)
        invariant more ==> problem.None? && WalkElements(text, at, depth) == goal
        invariant !more ==> State() == goal
        decreases more, |text| - at
      {
        more := ReadElement(depth);
      }
    }

    /** One turn of the array loop; `more` after a comma. */
    method ReadElement(depth: nat) returns (more: bool)
      requires Valid() && problem.None?
      modifies this
      ensures Valid() && at >= old(at)
      ensures more ==> problem.None? && at > old(at)
                       && WalkElements(text, at, depth) == WalkElements(text, old(at), depth)
      ensures !more ==> State() == WalkElements(text, old(at), depth)
      decreases |text| - at, 2
    {
      SkipSpace();
      if Done() { return false; }
      if Peek() == ']' {
        at := at + 1;
        return false;
      }
      ReadValue(depth + 1);
      if problem.Some? { return false; }
      more := ReadAfterElement(depth);
    }

    method ReadAfterElement(depth: nat) returns (more: bool)
      requires Valid() && problem.None?
      modifies this
      ensures Valid() && at >= old(at)
      ensures more ==> problem.None? && at > old(at)
                       && WalkElements(text, at, depth) == WalkAfterElement(text, old(at), depth)
      ensures !more ==> State() == WalkAfterElement(text, old(at), depth)
    {
      SkipSpace();
      if Done() { return false; }
      if Peek() == ',' {
        // What comes next may be the closing bracket.
        at := at + 1;
        return true;
      }
      if Peek() == ']' {
        at := at + 1;
        return false;
      }
      Refuse(ElementSeparator(Peek()));
      return false;
    }


    method ReadDictionary(depth: nat)
      requires Valid() && !Done() && problem.None?
      modifies this
      ensures Valid() && State() == WalkPairs(text, old(at) + 1, depth)
      decreases |text| - at, 0
    {
      at := at + 1;
      ghost var goal := WalkPairs(text, at, depth);
      var more := true;
      while more
        invariant Valid() && at > old(at)
        invariant more ==> problem.None? && WalkPairs(text, at, depth) == goal
        invariant !more ==> State() == goal
        decreases more, |text| - at
      {
        more := ReadPair(depth);
      }
    }

    /** One turn of the dictionary loop; `more` after a comma. */
    method ReadPair(depth: nat) returns (more: bool)
      requires Valid() && problem.None?
      modifies this
      ensures Valid() && at >= old(at)
      ensures more ==> problem.None? && at > old(at)
                       && WalkPairs(text, at, depth) == WalkPairs(text, old(at), depth)
      ensures !more ==> State() == WalkPairs(text, old(at), depth)
      decreases |text| - at, 2
    {
      SkipSpace();
      if Done() { return false; }
      if Peek() == '}' {
        at := at + 1;
        return false;
      }
      ReadValue(depth + 1);
      if problem.Some? { return false; }
      more := ReadPairAfterKey(depth);
    }

    method ReadPairAfterKey(depth: nat) returns (more: bool)
      requires Valid() && problem.None?
      modifies this
      ensures Valid() && at >= old(at)
      ensures more ==> problem.None? && at > old(at)
                       && WalkPairs(text, at, depth) == WalkAfterKey(text, old(at), depth)
      ensures !more ==> State() == WalkAfterKey(text, old(at), depth)
      decreases |text| - at, 1
    {
      ghost var goal := WalkAfterKey(text, at, depth);
      SkipSpace();
      if Done() { return false; }
      if Peek() != ':' {
        Refuse(KeySeparator(Peek()));
        return false;
      }
      at := at + 1;
      ReadValue(depth + 1);
      if problem.Some? { return false; }
      assert goal == WalkAfterPair(text, at, depth);
      more := ReadAfterPair(depth);
    }

    method ReadAfterPair(depth: nat) returns (more: bool)
      requires Valid() && problem.None?
      modifies this
      ensures Valid() && at >= old(at)
      ensures more ==> problem.None? && at > old(at)
                       && WalkPairs(text, at, depth) == WalkAfterPair(text, old(at), depth)
      ensures !more ==> State() == WalkAfterPair(text, old(at), depth)
    {
      SkipSpace();
      if Done() { return false; }
      if Peek() == ',' {
        at := at + 1;
        return true;
      }
      if Peek() == '}' {
        at := at + 1;
        return false;
      }
      Refuse(PairSeparator(Peek()));
      return false;
    }
  }

  function ProblemOf(valueText: string): Option<Refusal> {
    WalkValue(valueText, 0, 0).problem
  }

  method ValueProblem(valueText: string) returns (problem: Option<Refusal>)
    ensures problem == ProblemOf(valueText)
  {
    var walk := new ValueWalk(valueText);
    walk.ReadValue(0);
    problem := walk.problem;
  }
}
