/**
 Find, create, and on a unique violation find again and update: setUserLimit (app/index.ts) and
 syncInboundFlagRecord (app/modules/activityPub/flagState.ts), any number of callers interleaved at
 every query. Rows are never deleted, so a row is known by its place in the table.
 */
module Upserts {
  import opened Wrappers

  type Field = string
  type Data = map<Field, int>

  datatype Row = Row(key: string, data: Data)

  /** A limit update writes every given field; a flag update only those that differ from the row the caller read. */
  datatype Kind = Limit | Flag

  datatype Phase =
    | Finding
    | Creating
    | Refinding
    | Updating(row: nat, seen: Data)
    | ReadingBack
    | Returned
    | Rethrew       // the throw after the second lookup found nothing
    | QueryFailed   // some query failed for another reason

  datatype Caller = Caller(key: string, data: Data, phase: Phase)

  datatype State = State(rows: seq<Row>, callers: seq<Caller>)

  datatype Step = Advance(caller: nat) | Fail(caller: nat)

  function Lookup(rows: seq<Row>, key: string): (r: Option<nat>)
    ensures r.Some? ==> r.value < |rows| && rows[r.value].key == key
    ensures r.None? ==> forall i :: 0 <= i < |rows| ==> rows[i].key != key
  {
    if rows == [] then None
    else if rows[|rows| - 1].key == key then Some(|rows| - 1)
    else Lookup(rows[..|rows| - 1], key)
  }

  /** getChangedFlagData */
  function Changed(seen: Data, data: Data): Data {
    map f | f in data && !(f in seen && seen[f] == data[f]) :: data[f]
  }

  function Written(kind: Kind, seen: Data, data: Data): Data {
    if kind.Limit? then data else Changed(seen, data)
  }

  predicate Finished(p: Phase) {
    p.Returned? || p.Rethrew? || p.QueryFailed?
  }

  predicate Enabled(s: State, step: Step) {
    step.caller < |s.callers| && !Finished(s.callers[step.caller].phase)
    && (s.callers[step.caller].phase.Updating? ==> s.callers[step.caller].phase.row < |s.rows|)
  }

  function WithPhase(s: State, c: nat, phase: Phase): State
    requires c < |s.callers|
  {
    s.(callers := s.callers[c := s.callers[c].(phase := phase)])
  }

  function Apply(kind: Kind, s: State, step: Step): State
    requires Enabled(s, step)
  {
    var c := step.caller;
    var caller := s.callers[c];
    if step.Fail? then WithPhase(s, c, QueryFailed)
    else
      match caller.phase
      case Finding =>
        var found := Lookup(s.rows, caller.key);
        WithPhase(s, c, if found.Some? then Updating(found.value, s.rows[found.value].data) else Creating)
      case Creating =>
        if Lookup(s.rows, caller.key).Some? then WithPhase(s, c, Refinding)
        else WithPhase(s.(rows := s.rows + [Row(caller.key, caller.data)]), c, Returned)
      case Refinding =>
        var found := Lookup(s.rows, caller.key);
        WithPhase(s, c, if found.Some? then Updating(found.value, s.rows[found.value].data) else Rethrew)
      case Updating(row, seen) =>
        var r := s.rows[row];
        WithPhase(s.(rows := s.rows[row := r.(data := r.data + Written(kind, seen, caller.data))]), c,
                  if kind.Limit? then ReadingBack else Returned)
      case ReadingBack => WithPhase(s, c, Returned)
      case _ => s
  }

  ghost predicate IsRun(kind: Kind, states: seq<State>, steps: seq<Step>) {
    && |states| == |steps| + 1 && Initial(states[0])
    && forall i :: 0 <= i < |steps| ==> Enabled(states[i], steps[i]) && states[i + 1] == Apply(kind, states[i], steps[i])
  }

  /** Whatever is in the table; every caller at its first query. */
  ghost predicate Initial(s: State) {
    UniqueKeys(s.rows) && forall c :: 0 <= c < |s.callers| ==> s.callers[c].phase == Finding
  }

  ghost predicate UniqueKeys(rows: seq<Row>) {
    forall i, j :: 0 <= i < j < |rows| ==> rows[i].key != rows[j].key
  }

  predicate HasKey(rows: seq<Row>, key: string) {
    Lookup(rows, key).Some?
  }

  // ---------------------------------------------------------------- safety

  ghost predicate CallerOk(s: State, c: nat)
    requires c < |s.callers|
  {
    match s.callers[c].phase
    case Refinding => HasKey(s.rows, s.callers[c].key)
    case Updating(row, _) => row < |s.rows| && s.rows[row].key == s.callers[c].key
    case ReadingBack => HasKey(s.rows, s.callers[c].key)
    case Returned => HasKey(s.rows, s.callers[c].key)
    case Rethrew => false
    case _ => true
  }

  ghost predicate Inv(s: State) {
    UniqueKeys(s.rows) && forall c :: 0 <= c < |s.callers| ==> CallerOk(s, c)
  }

  lemma KeyAt(rows: seq<Row>, i: nat)
    requires i < |rows|
    ensures HasKey(rows, rows[i].key)
    ensures UniqueKeys(rows) ==> Lookup(rows, rows[i].key) == Some(i)
  {}

  /** Tables only grow and rows keep their keys. */
  ghost predicate Grown(a: seq<Row>, b: seq<Row>) {
    |a| <= |b| && forall i :: 0 <= i < |a| ==> a[i].key == b[i].key
  }

  lemma GrownKeepsKeys(a: seq<Row>, b: seq<Row>, key: string)
    requires Grown(a, b) && HasKey(a, key)
    ensures HasKey(b, key)
  {
    KeyAt(b, Lookup(a, key).value);
  }

  lemma StepGrows(kind: Kind, s: State, step: Step)
    requires Enabled(s, step)
    ensures Grown(s.rows, Apply(kind, s, step).rows)
    ensures |Apply(kind, s, step).callers| == |s.callers|
    ensures forall c :: 0 <= c < |s.callers| ==>
              Apply(kind, s, step).callers[c] == s.callers[c].(phase := Apply(kind, s, step).callers[c].phase)
    ensures forall c :: 0 <= c < |s.callers| && c != step.caller ==> Apply(kind, s, step).callers[c] == s.callers[c]
  {
    hide Lookup, Written;
  }

  lemma StepKeepsUnique(kind: Kind, s: State, step: Step)
    requires Enabled(s, step) && UniqueKeys(s.rows)
    ensures UniqueKeys(Apply(kind, s, step).rows)
  {
    hide Lookup, Written;
  }

  lemma StepKeepsOwn(kind: Kind, s: State, step: Step)
    requires Enabled(s, step) && Inv(s)
    ensures CallerOk(Apply(kind, s, step), step.caller)
  {
    var c := step.caller;
    var caller, t := s.callers[c], Apply(kind, s, step);
    assert CallerOk(s, c);
    StepGrows(kind, s, step);
    match caller.phase {
      case Creating =>
        if step.Advance? && !HasKey(s.rows, caller.key) { KeyAt(t.rows, |s.rows|); }
      case Updating(row, _) => if step.Advance? { KeyAt(t.rows, row); }
      case _ =>
    }
    hide Lookup, Written;
  }

  lemma StepKeepsInv(kind: Kind, s: State, step: Step)
    requires Enabled(s, step) && Inv(s)
    ensures Inv(Apply(kind, s, step))
  {
    StepKeepsUnique(kind, s, step);
    StepKeepsOwn(kind, s, step);
    StepGrows(kind, s, step);
    hide Apply, Enabled, HasKey, UniqueKeys;
    var t := Apply(kind, s, step);
    forall c | 0 <= c < |t.callers| ensures CallerOk(t, c) {
      if c != step.caller {
        assert CallerOk(s, c);
        if s.callers[c].phase.Refinding? || s.callers[c].phase.ReadingBack? || s.callers[c].phase.Returned? {
          GrownKeepsKeys(s.rows, t.rows, s.callers[c].key);
        }
      }
    }
  }

  /** In every interleaving there is at most one row for a key, and nobody rethrows: the second lookup always finds the row. */
  lemma {:induction false} RunKeepsInv(kind: Kind, states: seq<State>, steps: seq<Step>, n: nat)
    requires IsRun(kind, states, steps) && n < |states|
    ensures Inv(states[n])
  {
    if n == 0 {
    } else {
      RunKeepsInv(kind, states, steps, n - 1);
      hide Inv, Enabled, Apply;
      StepKeepsInv(kind, states[n - 1], steps[n - 1]);
    }
  }

  lemma NobodyRethrows(kind: Kind, states: seq<State>, steps: seq<Step>, n: nat, c: nat)
    requires IsRun(kind, states, steps) && n < |states| && c < |states[n].callers|
    ensures UniqueKeys(states[n].rows) && !states[n].callers[c].phase.Rethrew?
    ensures states[n].callers[c].phase.Returned? ==> HasKey(states[n].rows, states[n].callers[c].key)
  {
    RunKeepsInv(kind, states, steps, n);
    assert CallerOk(states[n], c);
    hide IsRun;
  }

  // ---------------------------------------------------------------- how a call ends

  lemma FailsStep(kind: Kind, s: State, step: Step, c: nat)
    requires Enabled(s, step) && c < |s.callers|
    ensures c < |Apply(kind, s, step).callers|
    ensures Apply(kind, s, step).callers[c].phase.QueryFailed? <==> s.callers[c].phase.QueryFailed? || step == Fail(c)
  {
    hide Lookup, Written;
  }

  /** A call fails exactly when one of its queries does; losing the race for the insert is no failure. */
  lemma {:induction false} FailsIff(kind: Kind, states: seq<State>, steps: seq<Step>, n: nat, c: nat)
    requires IsRun(kind, states, steps) && n < |states| && c < |states[0].callers|
    ensures c < |states[n].callers|
    ensures states[n].callers[c].phase.QueryFailed? <==> exists i :: 0 <= i < n && steps[i] == Fail(c)
  {
    hide Enabled, Apply;
    if n == 0 {
    } else {
      FailsIff(kind, states, steps, n - 1, c);
      FailsStep(kind, states[n - 1], steps[n - 1], c);
    }
  }

  /** The queries call `c` has made that were answered. */
  ghost function Queries(steps: seq<Step>, n: nat, c: nat): nat
    requires n <= |steps|
  {
    if n == 0 then 0 else Queries(steps, n - 1, c) + if steps[n - 1] == Advance(c) then 1 else 0
  }

  /** How many queries lead to each phase: find, perhaps create and find again, update, and for a limit read back. */
  predicate QueriesFit(kind: Kind, phase: Phase, queries: nat) {
    match phase
    case Finding => queries == 0
    case Creating => queries == 1
    case Refinding => queries == 2
    case Updating(_, _) => queries == 1 || queries == 3
    case ReadingBack => kind.Limit? && (queries == 2 || queries == 4)
    case Returned => queries == 2 || (if kind.Limit? then queries == 3 || queries == 5 else queries == 4)
    case _ => true
  }

  lemma QueriesStep(kind: Kind, s: State, step: Step, c: nat, queries: nat)
    requires Enabled(s, step) && c < |s.callers| && QueriesFit(kind, s.callers[c].phase, queries)
    ensures c < |Apply(kind, s, step).callers|
    ensures QueriesFit(kind, Apply(kind, s, step).callers[c].phase, queries + if step == Advance(c) then 1 else 0)
  {
    hide Lookup, Written;
  }

  /** A limit that was updated is read back, a flag is not: so many queries every call makes, whoever else is at work. */
  lemma {:induction false} QueryCount(kind: Kind, states: seq<State>, steps: seq<Step>, n: nat, c: nat)
    requires IsRun(kind, states, steps) && n < |states| && c < |states[0].callers|
    ensures c < |states[n].callers| && QueriesFit(kind, states[n].callers[c].phase, Queries(steps, n, c))
  {
    hide Enabled, Apply, QueriesFit;
    if n == 0 {
      FirstQuery(kind, states[0], c);
    } else {
      QueryCount(kind, states, steps, n - 1, c);
      QueriesStep(kind, states[n - 1], steps[n - 1], c, Queries(steps, n - 1, c));
    }
  }

  lemma FirstQuery(kind: Kind, s: State, c: nat)
    requires Initial(s) && c < |s.callers|
    ensures QueriesFit(kind, s.callers[c].phase, 0)
  {}

  // ---------------------------------------------------------------- the last writer

  /** The row for a key, or nothing. */
  function DataOf(rows: seq<Row>, key: string): Option<Data> {
    var r := Lookup(rows, key);
    if r.Some? then Some(rows[r.value].data) else None
  }

  predicate Agrees(row: Data, data: Data) {
    forall f :: f in data ==> f in row && row[f] == data[f]
  }

  /** The step inserts or updates the row of this key. */
  predicate Writes(s: State, step: Step, key: string)
    requires Enabled(s, step)
  {
    var caller := s.callers[step.caller];
    step.Advance? && caller.key == key
    && (caller.phase.Updating? || (caller.phase.Creating? && !HasKey(s.rows, key)))
  }

  /** The fields a write puts into the row: a flag update may leave some out. */
  function Payload(kind: Kind, s: State, step: Step): Data
    requires Enabled(s, step)
  {
    var caller := s.callers[step.caller];
    if caller.phase.Updating? then Written(kind, caller.phase.seen, caller.data) else caller.data
  }

  lemma StepEffect(kind: Kind, s: State, step: Step, key: string)
    requires Enabled(s, step) && Inv(s)
    ensures DataOf(Apply(kind, s, step).rows, key) ==
            if Writes(s, step, key) then Some(DataOf(s.rows, key).GetOr(map[]) + Payload(kind, s, step)) else DataOf(s.rows, key)
  {
    var t := Apply(kind, s, step);
    var caller := s.callers[step.caller];
    assert CallerOk(s, step.caller);
    StepKeepsUnique(kind, s, step);
    LookupGrown(s.rows, t.rows, key);
    if step.Advance? {
      match caller.phase {
        case Creating =>
          if !HasKey(s.rows, caller.key) {
            KeyAt(t.rows, |s.rows|);
            assert map[] + caller.data == caller.data;
          }
        case Updating(row, _) =>
          KeyAt(s.rows, row);
          KeyAt(t.rows, row);
        case _ =>
      }
    }
    hide Lookup, Written;
  }

  lemma LookupGrown(a: seq<Row>, b: seq<Row>, key: string)
    requires Grown(a, b) && UniqueKeys(b)
    ensures Lookup(a, key).Some? ==> Lookup(b, key) == Lookup(a, key)
    ensures Lookup(a, key).None? && |a| == |b| ==> Lookup(b, key) == None
  {
    var r := Lookup(a, key);
    hide Lookup;
    if r.Some? { KeyAt(b, r.value); }
  }

  lemma {:induction false} QuietSteps(kind: Kind, states: seq<State>, steps: seq<Step>, key: string, from: nat, to: nat)
    requires IsRun(kind, states, steps) && from <= to < |states|
    requires forall i :: from <= i < to ==> !Writes(states[i], steps[i], key)
    ensures DataOf(states[to].rows, key) == DataOf(states[from].rows, key)
  {
    if from == to {
    } else {
      QuietSteps(kind, states, steps, key, from, to - 1);
      RunKeepsInv(kind, states, steps, to - 1);
      hide Inv, Enabled, Apply, Writes, DataOf;
      StepEffect(kind, states[to - 1], steps[to - 1], key);
    }
  }

  /** Limits: once nobody writes any more, the row is the last writer's data, in every field it gave. */
  lemma LastWriterWins(states: seq<State>, steps: seq<Step>, key: string, last: nat)
    requires IsRun(Limit, states, steps) && last < |steps| && Writes(states[last], steps[last], key)
    requires forall i :: last < i < |steps| ==> !Writes(states[i], steps[i], key)
    ensures var row := DataOf(states[|steps|].rows, key);
            row.Some? && Agrees(row.value, states[last].callers[steps[last].caller].data)
            && forall f :: f in row.value && f !in states[last].callers[steps[last].caller].data ==>
                 f in DataOf(states[last].rows, key).GetOr(map[]) && row.value[f] == DataOf(states[last].rows, key).GetOr(map[])[f]
  {
    RunKeepsInv(Limit, states, steps, last);
    StepEffect(Limit, states[last], steps[last], key);
    QuietSteps(Limit, states, steps, key, last + 1, |steps|);
    hide Inv, Enabled, Apply, DataOf, Writes;
  }

  // ---------------------------------------------------------------- flags

  predicate RowAgrees(s: State, key: string, data: Data) {
    DataOf(s.rows, key).Some? && Agrees(DataOf(s.rows, key).value, data)
  }

  /** The field has the value it has in one of the two. */
  predicate OneOf(row: Data, f: Field, a: Data, b: Data)
    requires f in a && f in b
  {
    f in row && (row[f] == a[f] || row[f] == b[f])
  }

  /** Every field of the row is from one of the two, not necessarily all from the same. */
  predicate Mixture(row: Data, a: Data, b: Data)
    requires a.Keys == b.Keys
  {
    forall f :: f in a ==> OneOf(row, f, a, b)
  }

  /** All deliveries for the key carry one of the two. */
  predicate Among(s: State, key: string, a: Data, b: Data) {
    forall c :: 0 <= c < |s.callers| && s.callers[c].key == key ==> s.callers[c].data == a || s.callers[c].data == b
  }

  /** The fields a caller will skip, because the row it read had them already, are still from one of the two. */
  predicate SkippedHold(row: Data, seen: Data, data: Data, a: Data, b: Data)
    requires a.Keys == b.Keys
  {
    forall f :: f in data && f in seen && seen[f] == data[f] ==> f in a && OneOf(row, f, a, b)
  }

  ghost predicate FlagOk(s: State, key: string, c: nat, a: Data, b: Data)
    requires a.Keys == b.Keys && c < |s.callers|
  {
    var phase, row := s.callers[c].phase, DataOf(s.rows, key);
    && !phase.ReadingBack?
    && (phase.Updating? ==> SkippedHold(row.GetOr(map[]), phase.seen, s.callers[c].data, a, b))
    && (phase.Returned? ==> row.Some? && Mixture(row.value, a, b))
  }

  ghost predicate FlagInv(s: State, key: string, a: Data, b: Data)
    requires a.Keys == b.Keys
  {
    Among(s, key, a, b) && forall c :: 0 <= c < |s.callers| && s.callers[c].key == key ==> FlagOk(s, key, c, a, b)
  }

  lemma PayloadIsPart(s: State, step: Step)
    requires Enabled(s, step)
    ensures forall f :: f in Payload(Flag, s, step) ==>
              f in s.callers[step.caller].data && Payload(Flag, s, step)[f] == s.callers[step.caller].data[f]
  {}

  /** A write of part of one of the two keeps what is from one of the two. */
  lemma PartWriteKeeps(row: Data, part: Data, whole: Data, seen: Data, data: Data, a: Data, b: Data)
    requires a.Keys == b.Keys && (whole == a || whole == b)
    requires forall f :: f in part ==> f in whole && part[f] == whole[f]
    ensures SkippedHold(row, seen, data, a, b) ==> SkippedHold(row + part, seen, data, a, b)
    ensures Mixture(row, a, b) ==> Mixture(row + part, a, b)
  {}

  lemma FlagStepOthers(s: State, step: Step, key: string, a: Data, b: Data, c: nat)
    requires a.Keys == b.Keys && Enabled(s, step) && Inv(s) && FlagInv(s, key, a, b)
    requires c < |s.callers| && c != step.caller && s.callers[c].key == key
    ensures FlagOk(Apply(Flag, s, step), key, c, a, b)
  {
    StepEffect(Flag, s, step, key);
    StepGrows(Flag, s, step);
    PayloadIsPart(s, step);
    assert FlagOk(s, key, c, a, b);
    hide Apply, Payload, DataOf, SkippedHold, Mixture, Enabled, Inv;
    if Writes(s, step, key) {
      var seen := if s.callers[c].phase.Updating? then s.callers[c].phase.seen else map[];
      PartWriteKeeps(DataOf(s.rows, key).GetOr(map[]), Payload(Flag, s, step), s.callers[step.caller].data, seen,
                     s.callers[c].data, a, b);
    }
  }

  /** The update writes what differs from the row it read, and what it skips still holds. */
  lemma UpdateMixes(row: Data, seen: Data, data: Data, a: Data, b: Data)
    requires a.Keys == b.Keys && (data == a || data == b) && SkippedHold(row, seen, data, a, b)
    ensures Mixture(row + Changed(seen, data), a, b)
  {}

  lemma OwnData(a: Data, b: Data, data: Data)
    requires a.Keys == b.Keys && (data == a || data == b)
    ensures Mixture(data, a, b) && forall seen :: SkippedHold(seen, seen, data, a, b)
  {}

  lemma FlagStepOwn(s: State, step: Step, key: string, a: Data, b: Data)
    requires a.Keys == b.Keys && Enabled(s, step) && Inv(s) && FlagInv(s, key, a, b) && s.callers[step.caller].key == key
    ensures FlagOk(Apply(Flag, s, step), key, step.caller, a, b)
  {
    var c := step.caller;
    var caller, t := s.callers[c], Apply(Flag, s, step);
    assert CallerOk(s, c) && FlagOk(s, key, c, a, b);
    StepEffect(Flag, s, step, key);
    OwnData(a, b, caller.data);
    if step.Advance? && caller.phase.Updating? {
      KeyAt(s.rows, caller.phase.row);
      UpdateMixes(DataOf(s.rows, key).GetOr(map[]), caller.phase.seen, caller.data, a, b);
    }
    assert map[] + caller.data == caller.data;
    hide Lookup, Changed, SkippedHold, Mixture;
  }

  lemma FlagStep(s: State, step: Step, key: string, a: Data, b: Data)
    requires a.Keys == b.Keys && Enabled(s, step) && Inv(s) && FlagInv(s, key, a, b)
    ensures FlagInv(Apply(Flag, s, step), key, a, b)
  {
    var t := Apply(Flag, s, step);
    StepGrows(Flag, s, step);
    hide Apply, FlagOk, Inv;
    forall c | 0 <= c < |t.callers| && t.callers[c].key == key ensures FlagOk(t, key, c, a, b) {
      if c == step.caller { FlagStepOwn(s, step, key, a, b); } else { FlagStepOthers(s, step, key, a, b, c); }
    }
  }

  lemma {:induction false} RunKeepsFlagInv(states: seq<State>, steps: seq<Step>, key: string, a: Data, b: Data, n: nat)
    requires a.Keys == b.Keys && IsRun(Flag, states, steps) && Among(states[0], key, a, b) && n < |states|
    ensures FlagInv(states[n], key, a, b)
  {
    if n == 0 {
    } else {
      RunKeepsFlagInv(states, steps, key, a, b, n - 1);
      RunKeepsInv(Flag, states, steps, n - 1);
      hide Inv, Enabled, Apply;
      FlagStep(states[n - 1], steps[n - 1], key, a, b);
    }
  }

  /** Some delivery for the key has returned. */
  ghost predicate SomeReturned(s: State, key: string) {
    exists c :: 0 <= c < |s.callers| && s.callers[c].key == key && s.callers[c].phase.Returned?
  }

  /** Two deliveries with different data: once one has returned, every field of the row is from one of the two. */
  lemma ReturnedIsMixture(states: seq<State>, steps: seq<Step>, key: string, a: Data, b: Data, n: nat)
    requires a.Keys == b.Keys && IsRun(Flag, states, steps) && Among(states[0], key, a, b) && n < |states|
    requires SomeReturned(states[n], key)
    ensures DataOf(states[n].rows, key).Some? && Mixture(DataOf(states[n].rows, key).value, a, b)
  {
    RunKeepsFlagInv(states, steps, key, a, b, n);
    hide IsRun, DataOf, Mixture;
  }

  /** Redeliveries of one activity: as soon as one has returned, the row is the common data, and it stays so whoever else is still writing. */
  lemma RedeliveriesAgree(states: seq<State>, steps: seq<Step>, key: string, data: Data, n: nat)
    requires IsRun(Flag, states, steps) && Among(states[0], key, data, data) && n < |states| && SomeReturned(states[n], key)
    ensures RowAgrees(states[n], key, data)
  {
    ReturnedIsMixture(states, steps, key, data, data, n);
    hide IsRun, DataOf, SomeReturned;
  }

  /** What a caller can check before the call: the two deliveries differ in one field at most. */
  predicate DifferInAtMostOne(a: Data, b: Data)
    requires a.Keys == b.Keys
  {
    forall x, y :: x in a && y in a && a[x] != b[x] && a[y] != b[y] ==> x == y
  }

  lemma MixtureOfOneField(row: Data, a: Data, b: Data)
    requires a.Keys == b.Keys && DifferInAtMostOne(a, b) && Mixture(row, a, b)
    ensures Agrees(row, a) || Agrees(row, b)
  {
    if !Agrees(row, a) {
      var x :| x in a && !(x in row && row[x] == a[x]);
      assert OneOf(row, x, a, b);
      forall f | f in b ensures f in row && row[f] == b[f] {
        assert OneOf(row, f, a, b);
      }
    }
  }

  /** In every run of deliveries with one or the other data the row ends as one of them, from the first return on. */
  ghost predicate AlwaysOneOfTheTwo(a: Data, b: Data) {
    forall states: seq<State>, steps: seq<Step>, key: string, n: nat ::
      IsRun(Flag, states, steps) && n < |states| && Among(states[0], key, a, b) && SomeReturned(states[n], key) ==>
      RowAgrees(states[n], key, a) || RowAgrees(states[n], key, b)
  }

  /** So flags are safe against different data exactly when the data differ in one field at most. */
  lemma OneOfTheTwoIff(a: Data, b: Data)
    requires a.Keys == b.Keys
    ensures AlwaysOneOfTheTwo(a, b) <==> DifferInAtMostOne(a, b)
  {
    hide IsRun, Among, SomeReturned, DataOf;
    if DifferInAtMostOne(a, b) {
      forall states: seq<State>, steps: seq<Step>, key: string, n: nat |
        IsRun(Flag, states, steps) && n < |states| && Among(states[0], key, a, b) && SomeReturned(states[n], key)
        ensures RowAgrees(states[n], key, a) || RowAgrees(states[n], key, b)
      {
        ReturnedIsMixture(states, steps, key, a, b, n);
        MixtureOfOneField(DataOf(states[n].rows, key).value, a, b);
      }
    } else {
      var x, y :| x in a && y in a && a[x] != b[x] && a[y] != b[y] && x != y;
      var states, steps := DifferentFlagsCanMix(a, b, x, y);
      BothAreAmong(states[0], a, b);
      BothHaveReturned(states[4], a, b);
      hide RowAgrees;
      assert !AlwaysOneOfTheTwo(a, b);
    }
  }

  lemma BothAreAmong(s: State, a: Data, b: Data)
    requires |s.callers| == 2 && s.callers[0].data == a && s.callers[1].data == b
    ensures Among(s, "k", a, b)
  {}

  lemma BothHaveReturned(s: State, a: Data, b: Data)
    requires |s.callers| == 2 && s.callers[0] == Caller("k", a, Returned)
    ensures SomeReturned(s, "k")
  {}

  lemma MixedFind(s: State, c: nat)
    requires |s.rows| == 1 && c < |s.callers| && s.callers[c].key == s.rows[0].key && s.callers[c].phase == Finding
    ensures Enabled(s, Advance(c)) && Apply(Flag, s, Advance(c)) == WithPhase(s, c, Updating(0, s.rows[0].data))
  {
    KeyAt(s.rows, 0);
  }

  lemma MixedUpdate(s: State, c: nat, row: Data)
    requires |s.rows| == 1 && c < |s.callers| && s.callers[c].phase.Updating? && s.callers[c].phase.row == 0
    requires row == s.rows[0].data + Changed(s.callers[c].phase.seen, s.callers[c].data)
    ensures Enabled(s, Advance(c))
    ensures Apply(Flag, s, Advance(c)) == WithPhase(State([Row(s.rows[0].key, row)], s.callers), c, Returned)
  {}

  /** The row that is a's but for one field, which is b's: a's update writes that field alone, b's all others. */
  lemma MixedData(a: Data, b: Data, y: Field)
    requires a.Keys == b.Keys && y in a
    ensures var row := a[y := b[y]]; row + Changed(row, a) == a && a + Changed(row, b) == b[y := a[y]]
  {}

  lemma NotBoth(s: State, a: Data, b: Data, x: Field, y: Field)
    requires a.Keys == b.Keys && x in a && y in a && x != y && a[x] != b[x] && a[y] != b[y]
    requires s.rows == [Row("k", b[y := a[y]])]
    ensures !RowAgrees(s, "k", a) && !RowAgrees(s, "k", b)
  {
    KeyAt(s.rows, 0);
    assert DataOf(s.rows, "k") == Some(b[y := a[y]]);
    assert y in b;
  }

  lemma FourSteps(s: seq<State>)
    requires |s| == 5 && Initial(s[0])
    requires Enabled(s[0], Advance(0)) && s[1] == Apply(Flag, s[0], Advance(0))
    requires Enabled(s[1], Advance(1)) && s[2] == Apply(Flag, s[1], Advance(1))
    requires Enabled(s[2], Advance(0)) && s[3] == Apply(Flag, s[2], Advance(0))
    requires Enabled(s[3], Advance(1)) && s[4] == Apply(Flag, s[3], Advance(1))
    ensures IsRun(Flag, s, [Advance(0), Advance(1), Advance(0), Advance(1)])
  {
    hide Enabled, Apply, Initial;
  }

  /**
   Data that differ in two fields can leave a row that is neither's: both updates read it, each skips the
   field that already had its value, and each overwrites the field the other one skipped.
   */
  lemma DifferentFlagsCanMix(a: Data, b: Data, x: Field, y: Field) returns (states: seq<State>, steps: seq<Step>)
    requires a.Keys == b.Keys && x in a && y in a && x != y && a[x] != b[x] && a[y] != b[y]
    ensures IsRun(Flag, states, steps) && |states| == 5 && |states[0].callers| == |states[4].callers| == 2
    ensures states[0].callers[0].data == a && states[0].callers[1].data == b
    ensures states[4].callers[0] == Caller("k", a, Returned) && states[4].callers[1] == Caller("k", b, Returned)
    ensures !RowAgrees(states[4], "k", a) && !RowAgrees(states[4], "k", b)
  {
    var row := a[y := b[y]];
    var s0 := State([Row("k", row)], [Caller("k", a, Finding), Caller("k", b, Finding)]);
    var s1 := WithPhase(s0, 0, Updating(0, row));
    var s2 := WithPhase(s1, 1, Updating(0, row));
    MixedFind(s0, 0);
    MixedFind(s1, 1);
    MixedData(a, b, y);
    hide Changed, Apply, Enabled, Agrees, RowAgrees, DataOf;
    var s3 := WithPhase(State([Row("k", a)], s2.callers), 0, Returned);
    var s4 := WithPhase(State([Row("k", b[y := a[y]])], s3.callers), 1, Returned);
    MixedUpdate(s2, 0, a);
    MixedUpdate(s3, 1, b[y := a[y]]);
    NotBoth(s4, a, b, x, y);
    steps := [Advance(0), Advance(1), Advance(0), Advance(1)];
    states := [s0, s1, s2, s3, s4];
    FourSteps(states);
    hide IsRun;
  }

  // ---------------------------------------------------------------- the code as it runs

  /** getChangedFlagData as the loop over the given keys; any order gives the same. */
  method GetChangedFlagData(seen: Data, data: Data) returns (updateData: Data)
    ensures updateData == Changed(seen, data)
  {
    updateData := map[];
    var pending := data.Keys;
    while pending != {}
      invariant pending <= data.Keys
      invariant forall f :: f in updateData <==> f in Changed(seen, data) && f !in pending
      invariant forall f :: f in updateData ==> updateData[f] == data[f]
      decreases pending
    {
      var f :| f in pending;
      pending := pending - {f};
      if f in seen && seen[f] == data[f] {
        continue;
      }
      updateData := updateData[f := data[f]];
    }
  }

  /** A table with a unique key. */
  class UniqueTable {
    var rows: seq<Row>

    ghost predicate Valid()
      reads this
    {
      UniqueKeys(rows)
    }

    constructor ()
      ensures Valid() && rows == []
    {
      rows := [];
    }

    /** The insert fails on a key that is there. */
    method Create(key: string, data: Data) returns (ok: bool)
      requires Valid()
      modifies this
      ensures Valid() && (ok <==> !HasKey(old(rows), key))
      ensures rows == if ok then old(rows) + [Row(key, data)] else old(rows)
    {
      ok := Lookup(rows, key).None?;
      if ok { rows := rows + [Row(key, data)]; }
    }

    method Update(row: nat, data: Data)
      requires Valid() && row < |rows|
      modifies this
      ensures Valid() && rows == old(rows)[row := Row(old(rows)[row].key, old(rows)[row].data + data)]
    {
      rows := rows[row := rows[row].(data := rows[row].data + data)];
    }

    method UpdateFlagRecord(row: nat, data: Data)
      requires Valid() && row < |rows|
      modifies this
      ensures Valid() && rows == old(rows)[row := Row(old(rows)[row].key, old(rows)[row].data + data)]
    {
      hide Changed;
      var updateData := GetChangedFlagData(rows[row].data, data);
      ChangedIsEnough(rows[row].data, data);
      if updateData == map[] {
        return;
      }
      Update(row, updateData);
    }

    /**
     syncInboundFlagRecord, with another session that may insert the same key between the first lookup and
     the create: afterwards the row of the key holds the data, over what was there or what the other one
     inserted, and every other row is as it was.
     */
    method SyncInboundFlagRecord(key: string, data: Data, rival: Option<Data>) returns (ok: bool)
      requires Valid()
      modifies this
      ensures Valid() && ok
      ensures DataOf(rows, key) == Some(DataOf(old(rows), key).GetOr(rival.GetOr(map[])) + data)
      ensures Grown(old(rows), rows)
      ensures forall i :: 0 <= i < |old(rows)| && old(rows)[i].key != key ==> rows[i] == old(rows)[i]
    {
      hide Lookup;
      var existingFlag := Lookup(rows, key);
      if existingFlag.Some? {
        UpdateFlagRecord(existingFlag.value, data);
        KeyAt(rows, existingFlag.value);
        return true;
      }
      if rival.Some? {
        var inserted := Create(key, rival.value);
        KeyAt(rows, |rows| - 1);
      }
      ok := Create(key, data);
      if !ok {
        var createdFlag := Lookup(rows, key);
        if createdFlag.None? {
          return false;
        }
        UpdateFlagRecord(createdFlag.value, data);
        KeyAt(rows, createdFlag.value);
        return true;
      }
      KeyAt(rows, |rows| - 1);
      assert map[] + data == data;
    }
  }

  lemma ChangedIsEnough(seen: Data, data: Data)
    ensures seen + Changed(seen, data) == seen + data
    ensures Changed(seen, data) == map[] ==> seen + data == seen
  {
    if Changed(seen, data) == map[] {
      forall f | f in data ensures f in seen && seen[f] == data[f] {
        assert f !in Changed(seen, data);
      }
    }
  }
}
