module ConsoleLog {
  // The bounded log queue: interleaved steps of any number of pushers and the one detached writer.

  const MAX_LINES := 4096
  const MAX_BYTES := 4 * 1024 * 1024

  /** A line and its place among all lines ever pushed. */
  datatype Line = Line(number: nat, text: string)

  /** Where the writer stands: waiting, or with a batch of which `done` lines are out and a count of
      dropped lines it has yet to announce. */
  datatype Writer = Waiting | Catching(batch: seq<Line>, done: nat, unannounced: nat)

  /** The first four are the fields under the lock. The last four are what has gone by: the lines pushed,
      the lines written, the lines dropped and the counts announced. */
  datatype State = State(
    queue: seq<Line>,
    bytes: nat,
    pending: nat,
    dropped: nat,
    writer: Writer,
    pushed: seq<string>,
    written: seq<Line>,
    lost: seq<Line>,
    announced: seq<nat>)

  /** Nothing has gone by. */
  predicate NothingYet(s: State) {
    && |s.queue| == s.bytes == s.pending == s.dropped == 0 && s.writer == Waiting
    && |s.pushed| == |s.written| == |s.lost| == |s.announced| == 0
  }

  datatype Step = Push(text: string) | Takes | Announces | Writes | Finishes

  function Length(queue: seq<Line>): nat {
    if queue == [] then 0 else |queue[0].text| + Length(queue[1..])
  }

  predicate TooMuch(queue: seq<Line>, size: nat) {
    queue != [] && (|queue| >= MAX_LINES || Length(queue) + size > MAX_BYTES)
  }

  /** What is left of the queue once enough of the oldest lines are gone for `size` more bytes. */
  function Room(queue: seq<Line>, size: nat): (rest: seq<Line>)
    ensures |rest| <= |queue| && rest == queue[|queue| - |rest|..]
  {
    if TooMuch(queue, size) then Room(queue[1..], size) else queue
  }

  /** What a push does under the lock. */
  method PushLine(line: Line, queue: seq<Line>, bytes: nat, pending: nat, dropped: nat)
    returns (queue': seq<Line>, bytes': nat, pending': nat, dropped': nat)
    requires bytes == Length(queue) && |queue| <= pending
    ensures var rest := Room(queue, |line.text|);
      && queue' == rest + [line] && bytes' == Length(queue')
      && pending' == pending - (|queue| - |rest|) + 1 && dropped' == dropped + (|queue| - |rest|)
  {
    queue', bytes', pending', dropped' := queue, bytes, pending, dropped;
    while queue' != [] && (|queue'| >= MAX_LINES || bytes' + |line.text| > MAX_BYTES)
      invariant bytes' == Length(queue') && |queue'| <= |queue| && |queue'| <= pending'
      invariant Room(queue', |line.text|) == Room(queue, |line.text|)
      invariant pending' == pending - (|queue| - |queue'|) && dropped' == dropped + (|queue| - |queue'|)
    {
      bytes' := bytes' - |queue'[0].text|;
      queue' := queue'[1..];
      pending' := pending' - 1;
      dropped' := dropped' + 1;
    }
    LengthAndLast(queue', line);
    bytes' := bytes' + |line.text|;
    queue' := queue' + [line];
    pending' := pending' + 1;
  }

  lemma {:induction false} LengthAndLast(queue: seq<Line>, line: Line)
    ensures Length(queue + [line]) == Length(queue) + |line.text|
  {
    if queue == [] {
      assert ([] + [line])[1..] == [];
    } else {
      assert (queue + [line])[1..] == queue[1..] + [line];
      LengthAndLast(queue[1..], line);
    }
  }

  /** A push drops no more than it must: with any fewer lines gone it would not fit. */
  lemma {:induction false} DropsNoMoreThanItMust(queue: seq<Line>, size: nat)
    ensures var rest := Room(queue, size);
      !TooMuch(rest, size) && forall j :: 0 <= j < |queue| - |rest| ==> TooMuch(queue[j..], size)
  {
    assert queue[0..] == queue;
    if TooMuch(queue, size) {
      DropsNoMoreThanItMust(queue[1..], size);
      forall j | 0 <= j < |queue| - |Room(queue, size)| ensures TooMuch(queue[j..], size) {
        if j > 0 { assert queue[1..][j - 1..] == queue[j..]; }
      }
    }
  }

  // ----- Steps -----

  function Pushed(s: State, text: string): State
    requires |s.queue| <= s.pending
  {
    var line := Line(|s.pushed|, text);
    var rest := Room(s.queue, |text|);
    var gone := |s.queue| - |rest|;
    s.(queue := rest + [line], bytes := Length(rest + [line]), pending := s.pending - gone + 1,
       dropped := s.dropped + gone, pushed := s.pushed + [text], lost := s.lost + s.queue[..gone])
  }

  predicate May(s: State, step: Step) {
    match step
    case Push(_) => |s.queue| <= s.pending
    case Takes => s.writer.Waiting? && s.queue != []
    case Announces => s.writer.Catching? && s.writer.done == 0 && s.writer.unannounced > 0
    case Writes => s.writer.Catching? && s.writer.unannounced == 0 && s.writer.done < |s.writer.batch|
    case Finishes =>
      s.writer.Catching? && s.writer.unannounced == 0 && s.writer.done == |s.writer.batch| <= s.pending
  }

  function Next(s: State, step: Step): State
    requires May(s, step)
  {
    match step
    case Push(text) => Pushed(s, text)
    case Takes => s.(writer := Catching(s.queue, 0, s.dropped), queue := [], bytes := 0, dropped := 0)
    case Announces =>
      s.(writer := s.writer.(unannounced := 0), announced := s.announced + [s.writer.unannounced])
    case Writes =>
      s.(writer := s.writer.(done := s.writer.done + 1), written := s.written + [s.writer.batch[s.writer.done]])
    case Finishes => s.(writer := Waiting, pending := s.pending - |s.writer.batch|)
  }

  /** The states gone through from the start, one more than the steps taken. */
  predicate IsRun(states: seq<State>, steps: seq<Step>) {
    && |states| == |steps| + 1 && NothingYet(states[0])
    && forall i {:trigger steps[i]} :: 0 <= i < |steps| ==>
         May(states[i], steps[i]) && states[i + 1] == Next(states[i], steps[i])
  }

  // ----- What every step keeps -----

  function Unwritten(w: Writer): seq<Line> {
    if w.Waiting? || w.done > |w.batch| then [] else w.batch[w.done..]
  }

  function InBatch(w: Writer): nat {
    if w.Waiting? then 0 else |w.batch|
  }

  function Unannounced(w: Writer): nat {
    if w.Waiting? then 0 else w.unannounced
  }

  function Sum(counts: seq<nat>): nat {
    if counts == [] then 0 else counts[|counts| - 1] + Sum(counts[..|counts| - 1])
  }

  /** The lines not lost, in the order they go out. */
  function Kept(s: State): seq<Line> {
    s.written + (Unwritten(s.writer) + s.queue)
  }

  /** In the order they were pushed, none of them past `limit`. */
  predicate InOrder(lines: seq<Line>, limit: nat) {
    && (forall i, j :: 0 <= i < j < |lines| ==> lines[i].number < lines[j].number)
    && (forall i :: 0 <= i < |lines| ==> lines[i].number < limit)
  }

  /** Lines as they were pushed. */
  predicate Genuine(lines: seq<Line>, pushed: seq<string>) {
    forall line :: line in lines ==> line.number < |pushed| && line.text == pushed[line.number]
  }

  /** Each line pushed is in one of the two and not in both. */
  predicate Parted(kept: seq<Line>, lost: seq<Line>, pushed: seq<string>) {
    forall i :: 0 <= i < |pushed| ==> (Line(i, pushed[i]) in kept <==> Line(i, pushed[i]) !in lost)
  }

  predicate Lines(s: State) {
    && InOrder(Kept(s), |s.pushed|) && InOrder(s.lost + s.queue, |s.pushed|)
    && Genuine(Kept(s), s.pushed) && Genuine(s.lost, s.pushed)
    && Parted(Kept(s), s.lost, s.pushed)
  }

  predicate Counters(s: State) {
    && s.bytes == Length(s.queue)
    && s.pending == |s.queue| + InBatch(s.writer)
    && (s.writer.Catching? ==> s.writer.done <= |s.writer.batch| && s.writer.batch != []
                               && (s.writer.unannounced > 0 ==> s.writer.done == 0))
    && Sum(s.announced) + Unannounced(s.writer) + s.dropped == |s.lost|
    && (s.dropped > 0 ==> s.queue != [])
    && |s.queue| <= MAX_LINES && (s.bytes <= MAX_BYTES || |s.queue| == 1)
  }

  predicate Inv(s: State) {
    Counters(s) && Lines(s)
  }

  lemma NothingYetInv(s: State)
    requires NothingYet(s)
    ensures Inv(s)
  {
    assert Kept(s) == [];
  }

  lemma PushKeepsCounters(s: State, text: string)
    requires Counters(s)
    ensures |s.queue| <= s.pending && Counters(Pushed(s, text))
  {
    hide *;
    QueueIsPending(s);
    var rest := Room(s.queue, |text|);
    PushedCounts(s, text);
    DropsNoMoreThanItMust(s.queue, |text|);
    Fits(rest, |text|);
    CountersFollow(s, Pushed(s, text), rest, |text|);
  }

  lemma QueueIsPending(s: State)
    requires Counters(s)
    ensures |s.queue| <= s.pending
  {
    hide Length, Sum;
  }

  lemma CountersFollow(s: State, t: State, rest: seq<Line>, size: nat)
    requires Counters(s)
    requires |rest| <= |s.queue| <= s.pending && t.writer == s.writer && t.announced == s.announced
    requires t.bytes == Length(t.queue) == Length(rest) + size && |t.queue| == |rest| + 1
    requires t.pending == s.pending - (|s.queue| - |rest|) + 1
    requires t.dropped == s.dropped + (|s.queue| - |rest|) && |t.lost| == |s.lost| + (|s.queue| - |rest|)
    requires |rest| == 0 || (|rest| < MAX_LINES && Length(rest) + size <= MAX_BYTES)
    ensures Counters(t)
  {
    hide Length, Sum;
  }

  /** A push in numbers. */
  lemma PushedCounts(s: State, text: string)
    requires |s.queue| <= s.pending
    ensures var t, rest := Pushed(s, text), Room(s.queue, |text|);
      && |rest| <= |s.queue| && t.writer == s.writer && t.announced == s.announced
      && t.bytes == Length(t.queue) == Length(rest) + |text| && |t.queue| == |rest| + 1
      && t.pending == s.pending - (|s.queue| - |rest|) + 1
      && t.dropped == s.dropped + (|s.queue| - |rest|) && |t.lost| == |s.lost| + (|s.queue| - |rest|)
  {
    hide Length, Room;
    LengthAndLast(Room(s.queue, |text|), Line(|s.pushed|, text));
  }

  lemma Fits(queue: seq<Line>, size: nat)
    requires !TooMuch(queue, size)
    ensures |queue| == 0 || (|queue| < MAX_LINES && Length(queue) + size <= MAX_BYTES)
  {
    hide Length;
  }

  lemma PushKeepsLines(s: State, text: string)
    requires |s.queue| <= s.pending && Lines(s)
    ensures Lines(Pushed(s, text))
  {
    hide Length, Room, InOrder, Genuine, Parted;
    var n := |s.pushed|;
    var rest := Room(s.queue, |text|);
    var gone := s.queue[..|s.queue| - |rest|];
    var line := Line(n, text);
    var t := Pushed(s, text);
    var before := s.written + Unwritten(s.writer);
    assert s.queue == gone + rest;
    assert Kept(s) == before + gone + rest;
    assert Kept(t) == before + rest + [line];
    assert t.lost + t.queue == (s.lost + s.queue) + [line];
    DropsFromTheMiddle(before, gone, rest, n);
    OneMore(before + rest, line, n);
    OneMore(s.lost + s.queue, line, n);
    Reshares(before, gone, rest, s.lost, s.pushed, line);
  }

  /** The oldest of the queue go to the lost and a new line comes last. */
  lemma Reshares(before: seq<Line>, gone: seq<Line>, rest: seq<Line>, lost: seq<Line>, pushed: seq<string>, line: Line)
    requires InOrder(before + gone + rest, |pushed|) && line.number == |pushed|
    requires Genuine(before + gone + rest, pushed) && Genuine(lost, pushed)
    requires Parted(before + gone + rest, lost, pushed)
    ensures Genuine(before + rest + [line], pushed + [line.text]) && Genuine(lost + gone, pushed + [line.text])
    ensures Parted(before + rest + [line], lost + gone, pushed + [line.text])
  {
    var kept := before + gone + rest;
    Between(before, gone, rest);
    forall l | l in gone ensures l !in before + rest {
      OneAtATime(before, gone, rest, |pushed|, l);
    }
    forall i | 0 <= i < |pushed|
      ensures Line(i, pushed[i]) in before + rest + [line] <==> Line(i, pushed[i]) !in lost + gone
    {
      var l := Line(i, pushed[i]);
      assert l in kept <==> l in before + rest || l in gone;
    }
  }

  lemma Between(a: seq<Line>, b: seq<Line>, c: seq<Line>)
    ensures forall l :: l in a + b + c <==> l in a + c || l in b
  {
  }

  lemma OneAtATime(a: seq<Line>, b: seq<Line>, c: seq<Line>, limit: nat, line: Line)
    requires InOrder(a + b + c, limit) && line in b
    ensures line !in a + c
  {
    var all := a + b + c;
    var k :| 0 <= k < |b| && b[k] == line;
    assert all[|a| + k] == line;
    forall i | 0 <= i < |a + c| ensures (a + c)[i] != line {
      assert (a + c)[i] == all[if i < |a| then i else i + |b|];
    }
  }

  lemma DropsFromTheMiddle(a: seq<Line>, b: seq<Line>, c: seq<Line>, limit: nat)
    requires InOrder(a + b + c, limit)
    ensures InOrder(a + c, limit)
  {
    var all, less := a + b + c, a + c;
    forall i, j | 0 <= i < j < |less| ensures less[i].number < less[j].number {
      var i' := if i < |a| then i else i + |b|;
      var j' := if j < |a| then j else j + |b|;
      assert less[i] == all[i'] && less[j] == all[j'];
    }
    forall i | 0 <= i < |less| ensures less[i].number < limit {
      assert less[i] == all[if i < |a| then i else i + |b|];
    }
  }

  lemma OneMore(lines: seq<Line>, line: Line, limit: nat)
    requires InOrder(lines, limit) && line.number == limit
    ensures InOrder(lines + [line], limit + 1)
  {
  }

  lemma SumAndLast(counts: seq<nat>, count: nat)
    ensures Sum(counts + [count]) == Sum(counts) + count
  {
    assert (counts + [count])[..|counts|] == counts;
  }

  lemma WriterKeepsCounters(s: State, step: Step)
    requires Counters(s) && May(s, step) && !step.Push?
    ensures Counters(Next(s, step))
  {
    assert Length([]) == 0;
    hide Sum, Length;
    if step.Announces? { SumAndLast(s.announced, s.writer.unannounced); }
  }

  /** The writer only moves lines along. */
  lemma WriterKeepsLines(s: State, step: Step)
    requires Counters(s) && May(s, step) && !step.Push?
    ensures var t := Next(s, step); Kept(t) == Kept(s) && t.lost == s.lost && t.pushed == s.pushed
    ensures var t := Next(s, step); t.queue == s.queue || t.queue == []
  {
    hide Sum, Length;
    var t := Next(s, step);
    if step.Writes? {
      var batch, done := s.writer.batch, s.writer.done;
      assert batch[done..] == [batch[done]] + batch[done + 1..];
    }
    assert Kept(t) == Kept(s);
  }

  lemma StepKeepsInv(s: State, step: Step)
    requires Inv(s) && May(s, step)
    ensures Inv(Next(s, step))
  {
    hide InOrder, Pushed, Counters, Kept, Genuine, Parted;
    if step.Push? {
      PushKeepsCounters(s, step.text);
      PushKeepsLines(s, step.text);
    } else {
      WriterKeepsCounters(s, step);
      WriterKeepsLines(s, step);
      FirstInOrder(s.lost, s.queue, |s.pushed|);
      assert s.lost + [] == s.lost;
    }
  }

  lemma {:induction false} RunKeepsInv(states: seq<State>, steps: seq<Step>, k: nat)
    requires IsRun(states, steps) && k < |states|
    ensures Inv(states[k])
  {
    hide Inv, Next, May, NothingYet;
    if k == 0 {
      NothingYetInv(states[0]);
    } else {
      RunKeepsInv(states, steps, k - 1);
      StepKeepsInv(states[k - 1], steps[k - 1]);
    }
  }

  // ----- Over every run -----

  /** The counters say what they are for, and the queue is bounded: past the byte limit it holds only the
      one line that is over it by itself. */
  lemma CountersAreExact(states: seq<State>, steps: seq<Step>, k: nat)
    requires IsRun(states, steps) && k < |states|
    ensures var s := states[k];
      && s.bytes == Length(s.queue) && s.pending == |s.queue| + InBatch(s.writer)
      && |s.queue| <= MAX_LINES && (s.bytes <= MAX_BYTES || |s.queue| == 1)
  {
    hide IsRun, InOrder, Sum, Length;
    RunKeepsInv(states, steps, k);
  }

  /** Every line pushed is written once, dropped once or still on its way, never two of these, and both the
      lines written and the lines dropped are in the order they were pushed. */
  lemma EveryLineOnce(states: seq<State>, steps: seq<Step>, k: nat)
    requires IsRun(states, steps) && k < |states|
    ensures var s := states[k];
      && InOrder(s.written, |s.pushed|) && InOrder(s.lost, |s.pushed|)
      && Genuine(s.written, s.pushed) && Genuine(s.lost, s.pushed)
      && Parted(s.written + (Unwritten(s.writer) + s.queue), s.lost, s.pushed)
      && forall line :: line in s.written ==> line !in Unwritten(s.writer) + s.queue
  {
    hide *;
    RunKeepsInv(states, steps, k);
    var s := states[k];
    var coming := Unwritten(s.writer) + s.queue;
    LinesOf(s);
    FirstInOrder(s.written, coming, |s.pushed|);
    FirstInOrder(s.lost, s.queue, |s.pushed|);
    forall line | line in s.written ensures line !in coming {
      assert [] + s.written + coming == s.written + coming && [] + coming == coming;
      OneAtATime([], s.written, coming, |s.pushed|, line);
    }
  }

  lemma LinesOf(s: State)
    requires Inv(s)
    ensures var coming := Unwritten(s.writer) + s.queue;
      && InOrder(s.written + coming, |s.pushed|) && InOrder(s.lost + s.queue, |s.pushed|)
      && Genuine(s.written, s.pushed) && Genuine(s.lost, s.pushed) && Parted(s.written + coming, s.lost, s.pushed)
  {
    hide Counters, InOrder, Parted, Unwritten;
  }

  lemma FirstInOrder(a: seq<Line>, b: seq<Line>, limit: nat)
    requires InOrder(a + b, limit)
    ensures InOrder(a, limit)
  {
    forall i | 0 <= i < |a| ensures a[i] == (a + b)[i] {}
  }

  /** When a drain finds nothing pending, every line was written or dropped, and what was announced adds
      up to exactly the lines dropped. */
  lemma DrainedMeansAnnounced(states: seq<State>, steps: seq<Step>, k: nat)
    requires IsRun(states, steps) && k < |states| && states[k].pending == 0
    ensures var s := states[k];
      && Sum(s.announced) == |s.lost|
      && Parted(s.written, s.lost, s.pushed)
  {
    hide IsRun, InOrder, Sum, Length, Genuine, Parted;
    RunKeepsInv(states, steps, k);
    var s := states[k];
    assert Kept(s) == s.written;
  }

  // ----- The writer can always catch up -----

  lemma RunGoesOn(states: seq<State>, steps: seq<Step>, step: Step)
    requires IsRun(states, steps) && May(states[|steps|], step)
    ensures IsRun(states + [Next(states[|steps|], step)], steps + [step])
  {
    hide NothingYet, May, Next;
    var more, done := states + [Next(states[|steps|], step)], steps + [step];
    assert forall i :: 0 <= i < |states| ==> more[i] == states[i];
    assert forall i :: 0 <= i < |steps| ==> done[i] == steps[i];
    forall i | 0 <= i < |done| ensures May(more[i], done[i]) && more[i + 1] == Next(more[i], done[i]) {
      if i < |steps| { assert done[i] == steps[i]; }
    }
  }

  function ToWrite(w: Writer): nat {
    if w.Waiting? then 0
    else 1 + (if w.unannounced > 0 then 1 else 0) + (if w.done <= |w.batch| then |w.batch| - w.done else 0)
  }

  /** The next step of the writer, while anything is pending. */
  lemma WriterMoves(s: State) returns (step: Step)
    requires Inv(s) && s.pending > 0
    ensures May(s, step) && !step.Push?
    ensures var t := Next(s, step); |t.queue| < |s.queue| || (t.queue == s.queue && ToWrite(t.writer) < ToWrite(s.writer))
  {
    hide Lines, Sum, Length;
    match s.writer
    case Waiting => step := Takes;
    case Catching(batch, done, unannounced) =>
      step := if unannounced > 0 then Announces else if done < |batch| then Writes else Finishes;
  }

  /** From every state of every run the writer alone can go on until nothing is pending; then every line that was
      pushed and not dropped by then is written, in the order it was pushed. */
  lemma {:induction false} WriterCanCatchUp(states: seq<State>, steps: seq<Step>) returns (more: seq<State>, done: seq<Step>)
    requires IsRun(states, steps)
    ensures IsRun(more, done) && states <= more && steps <= done && forall i :: |steps| <= i < |done| ==> !done[i].Push?
    ensures var s, t := states[|steps|], more[|done|];
      t.pending == 0 && t.pushed == s.pushed && t.lost == s.lost && t.written == Kept(s)
    decreases |states[|steps|].queue|, ToWrite(states[|steps|].writer)
  {
    hide IsRun, Next, May, Kept, Unwritten, Inv, ToWrite;
    var s := states[|steps|] by { RunIsSome(states, steps); }
    RunIsSome(states, steps);
    RunKeepsInv(states, steps, |steps|);
    if s.pending == 0 {
      more, done := states, steps;
      NothingOnItsWay(s);
    } else {
      var step := WriterMoves(s);
      RunGoesOn(states, steps, step);
      MovesAlong(s, step);
      more, done := WriterCanCatchUp(states + [Next(s, step)], steps + [step]);
    }
  }

  lemma RunIsSome(states: seq<State>, steps: seq<Step>)
    requires IsRun(states, steps)
    ensures |states| == |steps| + 1
  {
  }

  lemma NothingOnItsWay(s: State)
    requires Inv(s) && s.pending == 0
    ensures s.written == Kept(s)
  {
    hide Lines;
    assert s.written + ([] + []) == s.written;
  }

  lemma MovesAlong(s: State, step: Step)
    requires Inv(s) && May(s, step) && !step.Push?
    ensures var t := Next(s, step); Kept(t) == Kept(s) && t.lost == s.lost && t.pushed == s.pushed
  {
    hide Lines, May, Next, Kept;
    WriterKeepsLines(s, step);
  }
}
