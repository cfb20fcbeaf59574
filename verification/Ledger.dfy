/** The data-production ledger: an append-only log of unit statuses, folded latest-wins, and the
    command that marks a unit complete and records the next unit to work on. */
module Ledger {
  import opened Sums
  import opened Wrappers

  datatype Unit = Unit(id: string, continent: string)

  datatype Status = Planned | Started | Completed | Verified | Published | Blocked

  datatype Entry = Entry(status: Status, unitId: string, remainingAfter: int)

  predicate IsDone(s: Status) {
    s.Completed? || s.Verified? || s.Published?
  }

  // ---------- summaries ----------

  function Latest(entries: seq<Entry>): map<string, Status> {
    if entries == [] then map[] else
      var e := entries[|entries| - 1];
      Latest(entries[..|entries| - 1])[e.unitId := e.status]
  }

  function Done(entries: seq<Entry>): set<string> {
    var latest := Latest(entries);
    set id | id in latest && IsDone(latest[id])
  }

  function InProgress(entries: seq<Entry>): set<string> {
    var latest := Latest(entries);
    set id | id in latest && !IsDone(latest[id])
  }

  function Without(units: seq<Unit>, done: set<string>): seq<Unit> {
    if units == [] then [] else
      var n := |units| - 1;
      Without(units[..n], done) + if units[n].id in done then [] else [units[n]]
  }

  function Remaining(units: seq<Unit>, entries: seq<Entry>): seq<Unit> {
    Without(units, Done(entries))
  }

  function FirstIn(units: seq<Unit>, ids: set<string>): Option<Unit> {
    if units == [] then None else if units[0].id in ids then Some(units[0]) else FirstIn(units[1..], ids)
  }

  // The first remaining unit that is in progress, or else the first remaining one.
  function Selected(units: seq<Unit>, entries: seq<Entry>): Option<Unit> {
    var remaining := Remaining(units, entries);
    var first := FirstIn(remaining, InProgress(entries));
    if first.Some? then first else if remaining == [] then None else Some(remaining[0])
  }

  function Bump(m: map<string, nat>, c: string): map<string, nat> {
    m[c := (if c in m then m[c] else 0) + 1]
  }

  function Tally(units: seq<Unit>): map<string, nat> {
    if units == [] then map[] else Bump(Tally(units[..|units| - 1]), units[|units| - 1].continent)
  }

  function Finished(units: seq<Unit>, done: set<string>): seq<Unit> {
    if units == [] then [] else
      var n := |units| - 1;
      Finished(units[..n], done) + if units[n].id in done then [units[n]] else []
  }

  datatype Summary = Summary(
    totalUnits: nat, completedUnits: nat, remainingUnits: nat, selected: Option<Unit>, alreadyInProgress: bool,
    remainingByContinent: map<string, nat>, completedByContinent: map<string, nat>)

  function Summarized(units: seq<Unit>, entries: seq<Entry>): Summary {
    var selected := Selected(units, entries);
    Summary(|units|, |Done(entries)|, |Remaining(units, entries)|, selected,
            selected.Some? && selected.value.id in InProgress(entries),
            Tally(Remaining(units, entries)), Tally(Finished(units, Done(entries))))
  }

  method SummarizeProgress(units: seq<Unit>, entries: seq<Entry>) returns (s: Summary)
    ensures s == Summarized(units, entries)
  {
    var latest: map<string, Status> := map[];
    for i := 0 to |entries|
      invariant latest == Latest(entries[..i])
    {
      assert entries[..i + 1][..i] == entries[..i];
      latest := latest[entries[i].unitId := entries[i].status];
    }
    assert entries[..|entries|] == entries;
    var completed := set id | id in latest && IsDone(latest[id]);
    var inProgress := set id | id in latest && !IsDone(latest[id]);
    hide Latest, Bump;
    var remaining := [];
    var remainingBy: map<string, nat>, completedBy: map<string, nat> := map[], map[];
    ghost var finished := [];
    for i := 0 to |units|
      invariant remaining == Without(units[..i], completed) && finished == Finished(units[..i], completed)
      invariant remainingBy == Tally(remaining) && completedBy == Tally(finished)
    {
      assert units[..i + 1][..i] == units[..i];
      var u := units[i];
      if u.id in completed {
        completedBy := Bump(completedBy, u.continent);
        TallyAppend(finished, u);
        finished := finished + [u];
      } else {
        remainingBy := Bump(remainingBy, u.continent);
        TallyAppend(remaining, u);
        remaining := remaining + [u];
      }
    }
    assert units[..|units|] == units;
    var selected := FirstIn(remaining, inProgress);
    if selected.None? && remaining != [] {
      selected := Some(remaining[0]);
    }
    s := Summary(|units|, |completed|, |remaining|, selected, selected.Some? && selected.value.id in inProgress,
                 remainingBy, completedBy);
  }

  lemma TallyAppend(units: seq<Unit>, u: Unit)
    ensures Tally(units + [u]) == Bump(Tally(units), u.continent)
  {
    assert (units + [u])[..|units|] == units;
  }

  // ---------- the command ----------

  // --mark-complete (absent or empty: nothing to mark) and --write.
  datatype Command = Command(mark: Option<string>, write: bool)

  function FindUnit(units: seq<Unit>, id: string): Option<Unit> {
    FirstIn(units, {id})
  }

  // The ids that any entry completes, whatever came after it.
  function EverDone(entries: seq<Entry>): set<string> {
    set e | e in entries && IsDone(e.status) :: e.unitId
  }

  function MarkEntry(units: seq<Unit>, entries: seq<Entry>, id: string): Entry {
    Entry(Completed, id, |units| - |EverDone(entries) + {id}|)
  }

  // Recording the selected unit, if there is one.
  function Recorded(units: seq<Unit>, entries: seq<Entry>): seq<Entry> {
    var s := Summarized(units, entries);
    if s.selected.None? then entries
    else entries + [Entry(if s.alreadyInProgress then Started else Planned, s.selected.value.id, s.remainingUnits)]
  }

  // The ledger after the command; an unknown unit to mark ends it at once.
  function After(units: seq<Unit>, entries: seq<Entry>, c: Command): seq<Entry> {
    var mark := c.mark.Some? && c.mark.value != "";
    if mark && FindUnit(units, c.mark.value).None? then entries
    else if !c.write then entries
    else Recorded(units, if mark then entries + [MarkEntry(units, entries, c.mark.value)] else entries)
  }

  datatype Outcome = UnknownUnit | Reported(summary: Summary)

  method RunCli(units: seq<Unit>, entries: seq<Entry>, c: Command) returns (ledger: seq<Entry>, outcome: Outcome)
    ensures ledger == After(units, entries, c)
    ensures outcome.UnknownUnit? <==>
            c.mark.Some? && c.mark.value != "" && forall u :: u in units ==> u.id != c.mark.value
    ensures outcome.Reported? ==>
            outcome.summary == Summarized(units,
              if c.write && c.mark.Some? && c.mark.value != "" then entries + [MarkEntry(units, entries, c.mark.value)]
              else entries)
  {
    hide Summarized;
    ledger := entries;
    if c.mark.Some? && c.mark.value != "" {
      FindUnitFinds(units, c.mark.value);
      var unit := FindUnit(units, c.mark.value);
      if unit.None? {
        return entries, UnknownUnit;
      }
      var completedIds := set e | e in entries && IsDone(e.status) :: e.unitId;
      var remainingAfter := |units| - |completedIds + {unit.value.id}|;
      if c.write {
        ledger := ledger + [Entry(Completed, unit.value.id, remainingAfter)];
      }
    }
    var report := SummarizeProgress(units, ledger);
    if c.write && report.selected.Some? {
      var status := if report.alreadyInProgress then Started else Planned;
      ledger := ledger + [Entry(status, report.selected.value.id, report.remainingUnits)];
    }
    outcome := Reported(report);
  }

  lemma {:induction false} FindUnitFinds(units: seq<Unit>, id: string)
    ensures FindUnit(units, id).Some? <==> exists u :: u in units && u.id == id
    ensures FindUnit(units, id).Some? ==> FindUnit(units, id).value in units && FindUnit(units, id).value.id == id
  {
    if units != [] && units[0].id != id {
      FindUnitFinds(units[1..], id);
    }
  }

  // ---------- appending one entry ----------

  lemma Appended(entries: seq<Entry>, e: Entry)
    ensures Done(entries + [e]) == if IsDone(e.status) then Done(entries) + {e.unitId} else Done(entries) - {e.unitId}
    ensures InProgress(entries + [e]) ==
            if IsDone(e.status) then InProgress(entries) - {e.unitId} else InProgress(entries) + {e.unitId}
    ensures EverDone(entries + [e]) == EverDone(entries) + if IsDone(e.status) then {e.unitId} else {}
  {
    assert (entries + [e])[..|entries|] == entries;
    assert Latest(entries + [e]) == Latest(entries)[e.unitId := e.status];
    assert forall f :: f in entries + [e] <==> f in entries || f == e;
  }

  // ---------- counting ----------

  predicate DistinctIds(units: seq<Unit>) {
    forall i, j :: 0 <= i < j < |units| ==> units[i].id != units[j].id
  }

  function Ids(units: seq<Unit>): set<string> {
    set u | u in units :: u.id
  }

  lemma {:induction false} CountWithout(units: seq<Unit>, done: set<string>)
    requires DistinctIds(units) && done <= Ids(units)
    ensures |Without(units, done)| == |units| - |done|
    ensures |Finished(units, done)| == |done|
  {
    if units == [] {
      assert done == {};
    } else {
      var n := |units| - 1;
      var last := units[n].id;
      LastId(units);
      CountWithout(units[..n], done - {last});
      DropAbsent(units[..n], done, last);
      hide Ids, DistinctIds;
      assert done - {last} == if last in done then done - {last} else done;
    }
  }

  lemma LastId(units: seq<Unit>)
    requires DistinctIds(units) && units != []
    ensures var rest, last := units[..|units| - 1], units[|units| - 1].id;
            DistinctIds(rest) && last !in Ids(rest) && Ids(units) == Ids(rest) + {last}
  {
    assert units == units[..|units| - 1] + [units[|units| - 1]];
  }

  lemma {:induction false} DropAbsent(units: seq<Unit>, done: set<string>, id: string)
    requires id !in Ids(units)
    ensures Without(units, done) == Without(units, done - {id}) && Finished(units, done) == Finished(units, done - {id})
  {
    if units != [] {
      var n := |units| - 1;
      assert units[n] in units;
      assert id !in Ids(units[..n]);
      DropAbsent(units[..n], done, id);
    }
  }

  lemma {:induction false} MemberOfWithout(units: seq<Unit>, done: set<string>)
    ensures forall u :: u in Without(units, done) <==> u in units && u.id !in done
  {
    if units != [] {
      var n := |units| - 1;
      MemberOfWithout(units[..n], done);
      assert units == units[..n] + [units[n]];
    }
  }

  // The per-continent counters add up to the totals.
  lemma {:induction false} TallySums(units: seq<Unit>)
    ensures SumBy(Tally(units), (n: nat) => n as real) == |units| as real
  {
    if units != [] {
      var rest, c := units[..|units| - 1], units[|units| - 1].continent;
      TallySums(rest);
      var m := Tally(rest);
      SumUpdate(m, (n: nat) => n as real, c, (if c in m then m[c] else 0) + 1);
    }
  }

  // ---------- the invariant of reachable ledgers ----------

  predicate Sound(units: seq<Unit>, entries: seq<Entry>) {
    EverDone(entries) == Done(entries) && Done(entries) <= Ids(units) && InProgress(entries) <= Ids(units) &&
    (forall a, b :: a in InProgress(entries) && b in InProgress(entries) ==> a == b) &&
    forall k :: 0 <= k < |entries| ==> entries[k].remainingAfter == |Remaining(units, entries[..k + 1])|
  }

  lemma SoundAppend(units: seq<Unit>, entries: seq<Entry>, e: Entry)
    requires Sound(units, entries) && e.unitId in Ids(units) && e.remainingAfter == |Remaining(units, entries + [e])|
    requires if IsDone(e.status) then true
             else e.unitId !in Done(entries) && forall a :: a in InProgress(entries) ==> a == e.unitId
    ensures Sound(units, entries + [e])
  {
    Appended(entries, e);
    var entries' := entries + [e];
    hide Done, InProgress, EverDone, Remaining, Ids;
    forall k | 0 <= k < |entries'|
      ensures entries'[k].remainingAfter == |Remaining(units, entries'[..k + 1])|
    {
      if k < |entries| {
        assert entries'[..k + 1] == entries[..k + 1];
      } else {
        assert entries'[..k + 1] == entries';
      }
    }
  }

  lemma SoundMark(units: seq<Unit>, entries: seq<Entry>, id: string)
    requires DistinctIds(units) && Sound(units, entries) && id in Ids(units)
    ensures var entries' := entries + [MarkEntry(units, entries, id)];
            Sound(units, entries') && Done(entries') == Done(entries) + {id} &&
            InProgress(entries') == InProgress(entries) - {id}
  {
    var e := MarkEntry(units, entries, id);
    Appended(entries, e);
    CountWithout(units, Done(entries) + {id});
    hide Done, InProgress, EverDone, Ids;
    SoundAppend(units, entries, e);
  }

  lemma {:induction false} FirstInFinds(units: seq<Unit>, ids: set<string>)
    ensures FirstIn(units, ids).Some? <==> exists u :: u in units && u.id in ids
    ensures FirstIn(units, ids).Some? ==> FirstIn(units, ids).value in units && FirstIn(units, ids).value.id in ids
  {
    if units != [] && units[0].id !in ids {
      FirstInFinds(units[1..], ids);
    }
  }

  lemma SameIdSameUnit(units: seq<Unit>, u: Unit, v: Unit)
    requires DistinctIds(units) && u in units && v in units && u.id == v.id
    ensures u == v
  {
  }

  lemma DoneIsNotInProgress(entries: seq<Entry>)
    ensures Done(entries) !! InProgress(entries)
  {
  }

  // A selection exists as long as something remains; it is a remaining unit, and the one in
  // progress if there is one.
  lemma SelectionFacts(units: seq<Unit>, entries: seq<Entry>)
    requires DistinctIds(units) && Sound(units, entries)
    ensures var s := Selected(units, entries);
            (s.None? <==> Remaining(units, entries) == []) && (s.None? ==> InProgress(entries) == {}) &&
            (s.Some? ==> s.value in units && s.value.id !in Done(entries) &&
                         (InProgress(entries) == {} || InProgress(entries) == {s.value.id}))
  {
    var remaining, ids := Remaining(units, entries), InProgress(entries);
    MemberOfWithout(units, Done(entries));
    FirstInFinds(remaining, ids);
    DoneIsNotInProgress(entries);
    hide Done, InProgress, EverDone;
    if a :| a in ids {
      var u :| u in units && u.id == a;
      assert u in remaining;
    }
    if remaining != [] {
      assert remaining[0] in remaining;
    }
  }

  lemma SoundRecord(units: seq<Unit>, entries: seq<Entry>)
    requires DistinctIds(units) && Sound(units, entries)
    ensures var entries', s := Recorded(units, entries), Selected(units, entries);
            Sound(units, entries') && Done(entries') == Done(entries) &&
            InProgress(entries') == (if s.Some? then {s.value.id} else {}) &&
            Selected(units, entries') == s
  {
    hide Done, InProgress, EverDone, Selected, Tally;
    SelectionFacts(units, entries);
    var s := Selected(units, entries);
    if s.Some? {
      var e := Recorded(units, entries)[|entries|];
      RecordOne(units, entries, e);
      SameIdSameUnit(units, s.value, Selected(units, entries + [e]).value);
    }
  }

  lemma RecordOne(units: seq<Unit>, entries: seq<Entry>, e: Entry)
    requires DistinctIds(units) && Sound(units, entries) && !IsDone(e.status)
    requires Selected(units, entries).Some? && e.unitId == Selected(units, entries).value.id
    requires e.remainingAfter == |Remaining(units, entries)|
    ensures Sound(units, entries + [e])
    ensures Done(entries + [e]) == Done(entries) && InProgress(entries + [e]) == {e.unitId}
    ensures var s := Selected(units, entries + [e]); s.Some? && s.value in units && s.value.id == e.unitId
  {
    hide Done, InProgress, EverDone, Selected;
    SelectionFacts(units, entries);
    Appended(entries, e);
    assert Done(entries) - {e.unitId} == Done(entries);
    SoundAppend(units, entries, e);
    SelectionFacts(units, entries + [e]);
  }

  // ---------- whole runs ----------

  function Runs(units: seq<Unit>, commands: seq<Command>): seq<Entry> {
    if commands == [] then [] else
      After(units, Runs(units, commands[..|commands| - 1]), commands[|commands| - 1])
  }

  // The unit that a writing command marks complete.
  predicate Marks(units: seq<Unit>, c: Command, id: string) {
    c.write && c.mark == Some(id) && id != "" && id in Ids(units)
  }

  // What one command does to a sound ledger: it stays sound, only the marked unit becomes done,
  // and the unit in progress stays the only one and stays selected unless it is the marked one.
  lemma OneCommand(units: seq<Unit>, entries: seq<Entry>, c: Command)
    requires DistinctIds(units) && Sound(units, entries)
    ensures var entries' := After(units, entries, c);
            Sound(units, entries') &&
            (forall id :: id in Done(entries') <==> id in Done(entries) || Marks(units, c, id)) &&
            (forall id :: id in InProgress(entries) && !Marks(units, c, id) ==>
               InProgress(entries') == {id} &&
               Selected(units, entries').Some? && Selected(units, entries').value.id == id)
  {
    hide Done, InProgress, EverDone, Recorded;
    SelectionFacts(units, entries);
    var mark := c.mark.Some? && c.mark.value != "";
    if mark {
      FindUnitFinds(units, c.mark.value);
    }
    if c.write && !(mark && FindUnit(units, c.mark.value).None?) {
      var mid := entries;
      if mark {
        SoundMark(units, entries, c.mark.value);
        mid := entries + [MarkEntry(units, entries, c.mark.value)];
      }
      SoundRecord(units, mid);
      SelectionFacts(units, mid);
    }
  }

  // Every ledger that commands can produce is sound: at most one unit is in progress, and each
  // entry's counter is the number of units that remain at that point.
  lemma {:induction false} ReachableIsSound(units: seq<Unit>, commands: seq<Command>)
    requires DistinctIds(units)
    ensures Sound(units, Runs(units, commands))
  {
    if commands == [] {
      assert Latest([]) == map[];
    } else {
      ReachableIsSound(units, commands[..|commands| - 1]);
      OneCommand(units, Runs(units, commands[..|commands| - 1]), commands[|commands| - 1]);
    }
  }

  lemma RunsAppend(units: seq<Unit>, commands: seq<Command>, more: seq<Command>)
    requires more != []
    ensures var n := |more| - 1;
            Runs(units, commands + more) == After(units, Runs(units, commands + more[..n]), more[n])
  {
    hide After;
    var n := |more| - 1;
    assert (commands + more)[..|commands| + n] == commands + more[..n];
  }

  // A completed unit stays completed, whatever commands follow.
  lemma {:induction false} CompletedForever(units: seq<Unit>, commands: seq<Command>, more: seq<Command>)
    requires DistinctIds(units)
    ensures Done(Runs(units, commands)) <= Done(Runs(units, commands + more))
  {
    hide Done, Sound, InProgress, Selected, Marks, After;
    if more == [] {
      assert commands + more == commands;
    } else {
      var n := |more| - 1;
      RunsAppend(units, commands, more);
      CompletedForever(units, commands, more[..n]);
      ReachableIsSound(units, commands + more[..n]);
      OneCommand(units, Runs(units, commands + more[..n]), more[n]);
    }
  }

  // A unit in progress stays the one selected until some command marks it.
  lemma {:induction false} SelectedUntilMarked(units: seq<Unit>, commands: seq<Command>, more: seq<Command>, id: string)
    requires DistinctIds(units) && id in InProgress(Runs(units, commands))
    requires forall c :: c in more ==> !Marks(units, c, id)
    ensures InProgress(Runs(units, commands + more)) == {id}
    ensures var s := Selected(units, Runs(units, commands + more)); s.Some? && s.value.id == id
  {
    hide InProgress, Selected, Marks, Sound, Done, After;
    ReachableIsSound(units, commands);
    if more == [] {
      assert commands + more == commands;
      OneInProgress(units, Runs(units, commands), id);
    } else {
      var n := |more| - 1;
      RunsAppend(units, commands, more);
      SelectedUntilMarked(units, commands, more[..n], id);
      ReachableIsSound(units, commands + more[..n]);
      OneCommand(units, Runs(units, commands + more[..n]), more[n]);
    }
  }

  lemma OneInProgress(units: seq<Unit>, entries: seq<Entry>, id: string)
    requires DistinctIds(units) && Sound(units, entries) && id in InProgress(entries)
    ensures InProgress(entries) == {id}
    ensures Selected(units, entries).Some? && Selected(units, entries).value.id == id
  {
    SelectionFacts(units, entries);
    hide InProgress, Selected;
  }

  // On a reachable ledger the summary adds up, in total and over the continents.
  lemma SummaryConserves(units: seq<Unit>, commands: seq<Command>)
    requires DistinctIds(units)
    ensures var s := Summarized(units, Runs(units, commands));
            s.completedUnits + s.remainingUnits == s.totalUnits &&
            SumBy(s.remainingByContinent, (n: nat) => n as real) == s.remainingUnits as real &&
            SumBy(s.completedByContinent, (n: nat) => n as real) == s.completedUnits as real
  {
    var entries := Runs(units, commands);
    ReachableIsSound(units, commands);
    CountWithout(units, Done(entries));
    TallySums(Remaining(units, entries));
    TallySums(Finished(units, Done(entries)));
  }

  // ---------- progress ----------

  // A command that marks the selected unit, if there is one.
  function MarkSelected(units: seq<Unit>, entries: seq<Entry>): Command {
    var s := Selected(units, entries);
    Command(if s.Some? then Some(s.value.id) else None, true)
  }

  function MarkingRuns(units: seq<Unit>, n: nat): seq<Entry> {
    if n == 0 then [] else
      var entries := MarkingRuns(units, n - 1);
      After(units, entries, MarkSelected(units, entries))
  }

  lemma MarkSelectedCounts(units: seq<Unit>, entries: seq<Entry>)
    requires DistinctIds(units) && (forall u :: u in units ==> u.id != "")
    requires Sound(units, entries) && Selected(units, entries).Some?
    ensures var entries' := After(units, entries, MarkSelected(units, entries));
            Sound(units, entries') && |Remaining(units, entries')| == |Remaining(units, entries)| - 1
  {
    hide Done, InProgress, EverDone, Selected, After;
    SelectionFacts(units, entries);
    var s := Selected(units, entries).value;
    var c := MarkSelected(units, entries);
    OneCommand(units, entries, c);
    assert forall id :: Marks(units, c, id) <==> id == s.id;
    var entries' := After(units, entries, c);
    assert Done(entries') == Done(entries) + {s.id};
    CountWithout(units, Done(entries));
    CountWithout(units, Done(entries'));
  }

  // Marking the selected unit every time, n commands complete n units; the selection runs out
  // after exactly as many commands as there are units.
  lemma {:induction false} EveryMarkCounts(units: seq<Unit>, n: nat)
    requires DistinctIds(units) && (forall u :: u in units ==> u.id != "") && n <= |units|
    ensures Sound(units, MarkingRuns(units, n))
    ensures |Remaining(units, MarkingRuns(units, n))| == |units| - n
    ensures Selected(units, MarkingRuns(units, n)).None? <==> n == |units|
  {
    hide Done, InProgress, Sound, Selected, After, Remaining, MarkSelected, DistinctIds;
    if n == 0 {
      NothingDone(units);
    } else {
      EveryMarkCounts(units, n - 1);
      MarkSelectedCounts(units, MarkingRuns(units, n - 1));
    }
    SelectionFacts(units, MarkingRuns(units, n));
  }

  lemma NothingDone(units: seq<Unit>)
    requires DistinctIds(units)
    ensures Sound(units, []) && |Remaining(units, [])| == |units|
  {
    ReachableIsSound(units, []);
    assert Done([]) == {};
    CountWithout(units, {});
  }
}
