/** Which scanned files load, and the verdict on one that does not. */
module ConfigLoading {
  import opened Text
  import opened ConfigGrammar
  import opened ConfigScan
  import opened ConfigRoundTrip
  import opened ConfigTidying
  import opened ConfigFileEnd
  import opened ValueWalking
  import opened ValueAcceptance

  datatype Failure = Failure(section: string, key: string, line: nat, unterminated: bool, reason: Option<Refusal>)

  /** The first entry from `from` on whose value has a problem. */
  function FirstProblem(entries: seq<Entry>, from: nat): (k: nat)
    requires from <= |entries|
    ensures from <= k <= |entries|
    ensures forall i :: from <= i < k ==> ProblemOf(entries[i].valueText).None?
    ensures k < |entries| ==> ProblemOf(entries[k].valueText).Some?
    decreases |entries| - from
  {
    if from < |entries| && ProblemOf(entries[from].valueText).None? then FirstProblem(entries, from + 1) else from
  }

  function FailureOf(scanned: Scan): Option<Failure> {
    if !scanned.complete then
      if scanned.entries == [] then Some(Failure([], [], 0, true, None))
      else
        var last := scanned.entries[|scanned.entries| - 1];
        Some(Failure(last.section, last.key, last.line, true, None))
    else
      var k := FirstProblem(scanned.entries, 0);
      if k == |scanned.entries| then None
      else
        var e := scanned.entries[k];
        Some(Failure(e.section, e.key, e.line, false, ProblemOf(e.valueText)))
  }

  /** A file loads exactly when no value is left open and none has a problem; otherwise the key named is
      the last one where the file ended inside its value, or the first whose value is refused. */
  lemma LoadsExactlyWhen(scanned: Scan)
    ensures var all := scanned.entries;
      && (FailureOf(scanned).None? <==>
          scanned.complete && forall i :: 0 <= i < |all| ==> ProblemOf(all[i].valueText).None?)
      && (FailureOf(scanned).Some? && all != [] ==>
          var failure := FailureOf(scanned).value;
          exists k :: 0 <= k < |all|
            && all[k].section == failure.section && all[k].key == failure.key && all[k].line == failure.line
            && failure.unterminated == !scanned.complete
            && if failure.unterminated then k == |all| - 1
               else ProblemOf(all[k].valueText) == failure.reason
                    && forall i :: 0 <= i < k ==> ProblemOf(all[i].valueText).None?)
  {
    hide ProblemOf;
    var all := scanned.entries;
    if FailureOf(scanned).Some? && all != [] {
      var k := if scanned.complete then FirstProblem(all, 0) else |all| - 1;
      assert all[k].section == FailureOf(scanned).value.section;
    }
  }

  method LoadFailure(scanned: Scan) returns (failure: Option<Failure>)
    ensures failure == FailureOf(scanned)
  {
    hide ProblemOf;
    if !scanned.complete {
      var f := Failure([], [], 0, true, None);
      if scanned.entries != [] {
        var last := scanned.entries[|scanned.entries| - 1];
        f := f.(section := last.section, key := last.key, line := last.line);
      }
      return Some(f);
    }
    var i := 0;
    while i < |scanned.entries|
      invariant i <= |scanned.entries| && FirstProblem(scanned.entries, 0) == FirstProblem(scanned.entries, i)
    {
      var entry := scanned.entries[i];
      var problem := ValueProblem(entry.valueText);
      if problem.Some? { return Some(Failure(entry.section, entry.key, entry.line, false, problem)); }
      i := i + 1;
    }
    return None;
  }

  lemma {:induction false} RegisteredHaveNoProblem(items: seq<Item>, section: string, number: nat)
    requires ValidItems(items)
    ensures forall e <- Registered(items, section, number) :: ProblemOf(e.valueText).None?
    decreases |items|
  {
    hide ProblemOf, Print, Valid, Joined, Tidied;
    if items != [] {
      assert ValidItem(items[0]);
      match items[0]
      case Section(name) => RegisteredHaveNoProblem(items[1..], name, number + 1);
      case Remark(_) => RegisteredHaveNoProblem(items[1..], section, number + 1);
      case Setting(key, value) =>
        KeptTextIsWritten(value);
        PrintedHasNoProblem(Tidied(value));
        RegisteredHaveNoProblem(items[1..], section, number + Breaks(Print(value)) + 1);
    }
  }

  /** A written file loads, whatever the layout of its values, with and without a newline at its end. */
  lemma WrittenFileLoads(items: seq<Item>)
    requires ValidItems(items) && AllReadWhole(items)
    ensures FailureOf(ScanText(PrintFile(items))) == None
    ensures items != [] ==> FailureOf(ScanText(WithoutFinalNewline(items))) == None
  {
    hide ProblemOf, Registered, HeadersOf, PrintFile, ScanText, ValidItems, AllReadWhole, WithoutFinalNewline;
    ScanInvertsPrint(items);
    RegisteredHaveNoProblem(items, [], 1);
    if items != [] { ScanInvertsPrintWithoutNewline(items); }
  }
}
