/**
 The key list of a multi-key channel as its users see it: an ordered list of entries, the requests of
 `ManageMultiKeys` (controller/channel.go) as edits of that list, what of an edited list is left once its keys
 are stored as one string and read back, and what `get_key_status` shows of that. The theorems here say exactly
 when a request, and every request of a run, does to the shown list what a plain edit of a list of records would.
 */
module KeyList {
  import opened Basics
  import opened Text

  const ENABLED := 1
  const MANUALLY_DISABLED := 2
  const AUTO_DISABLED := 3

  // One key with everything stored about it.
  datatype Entry = Entry(key: string, status: int, time: Option<int>, reason: Option<string>)

  function Keys(es: seq<Entry>): (keys: seq<string>)
    ensures |keys| == |es| && forall i :: 0 <= i < |es| ==> keys[i] == es[i].key
  {
    seq(|es|, i requires 0 <= i < |es| => es[i].key)
  }

  // Edits of the entry list

  function Without(es: seq<Entry>, k: int): seq<Entry> {
    if 0 <= k < |es| then es[..k] + es[k + 1..] else es
  }

  function Disable(e: Entry): Entry {
    e.(status := MANUALLY_DISABLED)
  }

  function Enable(e: Entry): Entry {
    Entry(e.key, ENABLED, None, None)
  }

  function EnableAll(es: seq<Entry>): (r: seq<Entry>)
    ensures |r| == |es| && forall i :: 0 <= i < |es| ==> r[i] == Enable(es[i])
  {
    seq(|es|, i requires 0 <= i < |es| => Enable(es[i]))
  }

  function DisableAll(es: seq<Entry>): (r: seq<Entry>)
    ensures |r| == |es| && forall i :: 0 <= i < |es| ==>
      r[i] == if es[i].status == ENABLED then Disable(es[i]) else es[i]
  {
    seq(|es|, i requires 0 <= i < |es| => if es[i].status == ENABLED then Disable(es[i]) else es[i])
  }

  // What delete_disabled_keys keeps: not what was disabled automatically, and of an enabled key only the key.
  function Survivors(es: seq<Entry>): seq<Entry> {
    if |es| == 0 then []
    else
      var last := es[|es| - 1];
      Survivors(es[..|es| - 1]) +
      (if last.status == AUTO_DISABLED then [] else if last.status == ENABLED then [Enable(last)] else [last])
  }

  function CountStatus(es: seq<Entry>, status: int): nat {
    if |es| == 0 then 0
    else CountStatus(es[..|es| - 1], status) + (if es[|es| - 1].status == status then 1 else 0)
  }

  datatype Reply = NoIndex | OutOfRange | LastKey | NothingToDo | Done(count: nat)

  lemma {:induction false} NoneToDisable(es: seq<Entry>)
    requires CountStatus(es, ENABLED) == 0
    ensures DisableAll(es) == es
  {
    if |es| > 0 {
      NoneToDisable(es[..|es| - 1]);
      assert DisableAll(es)[..|es| - 1] == DisableAll(es[..|es| - 1]);
    }
  }

  lemma {:induction false} SurvivorCount(es: seq<Entry>)
    ensures |Survivors(es)| + CountStatus(es, AUTO_DISABLED) == |es|
  {
    if |es| > 0 {
      SurvivorCount(es[..|es| - 1]);
    }
  }

  // Requests and runs of requests, on the list

  datatype Action =
    | DisableOne(k: Option<int>)
    | EnableOne(k: Option<int>)
    | EnableEvery
    | DisableEvery
    | DeleteOne(k: Option<int>)
    | DeleteDisabled

  predicate InRange(es: seq<Entry>, k: Option<int>) {
    k.Some? && 0 <= k.value < |es|
  }

  function Edit(es: seq<Entry>, action: Action): seq<Entry> {
    match action
    case DisableOne(k) => if InRange(es, k) then es[k.value := Disable(es[k.value])] else es
    case EnableOne(k) => if InRange(es, k) then es[k.value := Enable(es[k.value])] else es
    case EnableEvery => EnableAll(es)
    case DisableEvery => DisableAll(es)
    case DeleteOne(k) => if InRange(es, k) && |es| > 1 then Without(es, k.value) else es
    case DeleteDisabled =>
      if CountStatus(es, AUTO_DISABLED) == 0 then es
      else if CountStatus(es, AUTO_DISABLED) == |es| then EnableAll(es)
      else Survivors(es)
  }

  function Answer(es: seq<Entry>, action: Action): Reply {
    match action
    case DisableOne(k) => OneAnswer(es, k)
    case EnableOne(k) => OneAnswer(es, k)
    case EnableEvery => CountAtMost(es, ENABLED); Done(|es| - CountStatus(es, ENABLED))
    case DisableEvery => SomeAnswer(CountStatus(es, ENABLED))
    case DeleteOne(k) => if InRange(es, k) && |es| == 1 then LastKey else OneAnswer(es, k)
    case DeleteDisabled => SomeAnswer(CountStatus(es, AUTO_DISABLED))
  }

  function OneAnswer(es: seq<Entry>, k: Option<int>): Reply {
    if k.None? then NoIndex else if InRange(es, k) then Done(1) else OutOfRange
  }

  function SomeAnswer(count: nat): Reply {
    if count == 0 then NothingToDo else Done(count)
  }

  lemma {:induction false} CountAtMost(es: seq<Entry>, status: int)
    ensures CountStatus(es, status) <= |es|
  {
    if |es| > 0 {
      CountAtMost(es[..|es| - 1], status);
    }
  }

  // What a request on one key does: its entry gets the status, an enabled one loses its time and reason, a deleted
  // one is left out, and every other entry is as it was.
  lemma OneKeyEdits(es: seq<Entry>, k: nat)
    requires k < |es|
    ensures var off, on := Edit(es, DisableOne(Some(k))), Edit(es, EnableOne(Some(k)));
      && |off| == |on| == |es|
      && off[k] == Entry(es[k].key, 2, es[k].time, es[k].reason) && on[k] == Entry(es[k].key, 1, None, None)
      && forall i :: 0 <= i < |es| && i != k ==> off[i] == on[i] == es[i]
    ensures |es| > 1 ==>
      var rest := Edit(es, DeleteOne(Some(k)));
      |rest| == |es| - 1 && forall i :: 0 <= i < |rest| ==> rest[i] == if i < k then es[i] else es[i + 1]
  {
  }

  function StatusIs(es: seq<Entry>, status: int): nat -> bool {
    (i: nat) => i < |es| && es[i].status == status
  }

  function StatusIsNot(es: seq<Entry>, status: int): nat -> bool {
    (i: nat) => i < |es| && es[i].status != status
  }

  // The entry with the time and reason of a disabled key only.
  function SurvivorAt(es: seq<Entry>, default: Entry): nat -> Entry {
    (i: nat) =>
      if i >= |es| then default else if es[i].status == 1 then Entry(es[i].key, 1, None, None) else es[i]
  }

  // Deleting disabled keys keeps exactly the entries that were not disabled automatically, in order.
  lemma {:induction false} SurvivorsAre(es: seq<Entry>, n: nat, default: Entry) returns (places: seq<nat>)
    requires n <= |es|
    ensures Picked(places, n, StatusIsNot(es, 3)) && FoundAt(Survivors(es[..n]), places, SurvivorAt(es, default))
  {
    places := [];
    if n > 0 {
      places := SurvivorsAre(es, n - 1, default);
      assert es[..n][..n - 1] == es[..n - 1];
      places := PickNext(Survivors(es[..n - 1]), Survivors(es[..n]), places, n - 1, StatusIsNot(es, 3),
                         SurvivorAt(es, default));
    }
  }

  // The count is the number of places with the status.
  lemma {:induction false} CountIs(es: seq<Entry>, status: int, n: nat) returns (places: seq<nat>)
    requires n <= |es|
    ensures Picked(places, n, StatusIs(es, status)) && CountStatus(es[..n], status) == |places|
  {
    places := [];
    if n > 0 {
      places := CountIs(es, status, n - 1);
      assert es[..n][..n - 1] == es[..n - 1];
      var place := (i: nat) => i;
      var before := places;
      places := PickNext(before, before + if StatusIs(es, status)(n - 1) then [n - 1] else [], before, n - 1,
                         StatusIs(es, status), place);
    }
  }

  // The keys of the new list are read back as they are stored.
  predicate Storable(es: seq<Entry>, es': seq<Entry>) {
    Keys(es') == Keys(es) || Readable(Keys(es'))
  }

  // The keys read back after a list with other keys was stored: stripped, and the old ones when the new ones
  // are stored as an empty string.
  function Reread(keys: seq<string>, keys': seq<string>): seq<string> {
    if |keys'| == 0 || (|keys'| == 1 && |keys'[0]| == 0) then keys else Strip(keys')
  }

  // Keys put over the entries of another list, place by place.
  function Relabel(keys: seq<string>, es: seq<Entry>): (r: seq<Entry>)
    ensures |r| == |keys|
    ensures forall i :: 0 <= i < |keys| ==>
      r[i] == if i < |es| then es[i].(key := keys[i]) else Entry(keys[i], ENABLED, None, None)
  {
    seq(|keys|, i requires 0 <= i < |keys| =>
      if i < |es| then es[i].(key := keys[i]) else Entry(keys[i], ENABLED, None, None))
  }

  // What storing es' over es leaves: statuses, times and reasons stay at their indices, whatever the keys do.
  function Reloaded(es: seq<Entry>, es': seq<Entry>): seq<Entry> {
    if Keys(es') == Keys(es) then es' else Relabel(Reread(Keys(es), Keys(es')), es')
  }

  lemma StripsExactlyWhen(parts: seq<string>)
    requires |parts| > 0
    ensures Readable(parts) ==> Strip(parts) == parts
    ensures Strip(parts) == parts ==> Readable(parts) || (|parts| == 1 && |parts[0]| == 0)
  {
    StripEnds(parts);
  }

  lemma StripLength(parts: seq<string>)
    ensures |Strip(parts)| == |parts| ==> Strip(parts) == parts
  {
    var left := StripLeft(parts);
    assert |Strip(parts)| <= |left| <= |parts|;
    if |Strip(parts)| == |parts| {
      assert parts[0..] == parts && left[..|left|] == left;
    }
  }

  // A list of fewer keys is stored and read back as it is exactly when it is not empty at its ends.
  lemma ReloadsExactlyWhen(es: seq<Entry>, es': seq<Entry>)
    requires Keys(es') == Keys(es) || 0 < |es'| < |es|
    ensures Reloaded(es, es') == es' <==> Storable(es, es')
  {
    if Keys(es') != Keys(es) {
      var keys, keys' := Keys(es), Keys(es');
      StripsExactlyWhen(keys');
      var again := Reread(keys, keys');
      assert Reloaded(es, es') == es' ==> again == Keys(es');
      assert again == keys' ==> Relabel(again, es') == es';
    }
  }

  lemma FewerReloaded(es: seq<Entry>, es': seq<Entry>)
    requires |es'| < |es|
    ensures Reloaded(es, es') == Relabel(Reread(Keys(es), Keys(es')), es')
    ensures |es'| > 1 ==> Reloaded(es, es') == Relabel(Strip(Keys(es')), es')
  {
    assert |Keys(es')| != |Keys(es)|;
  }

  // With empty keys in front, every key takes the status, time and reason that many places before it.
  lemma ShiftsBy(es: seq<Entry>, es': seq<Entry>, i: nat)
    requires 1 < |es'| < |es| && i < |Reloaded(es, es')|
    ensures var m := |es'| - |StripLeft(Keys(es'))|;
      i + m < |es'| && Reloaded(es, es')[i] == es'[i].(key := es'[i + m].key)
  {
    FewerReloaded(es, es');
    StripAt(Keys(es'), i);
  }

  // What the channel holds after a request.
  function After(es: seq<Entry>, action: Action): seq<Entry> {
    Reloaded(es, Edit(es, action))
  }

  lemma OnlyStatuses(es: seq<Entry>, action: Action)
    requires !action.DeleteOne? && !action.DeleteDisabled?
    ensures Keys(Edit(es, action)) == Keys(es) && After(es, action) == Edit(es, action)
  {
  }

  // A request keeps the keys or leaves fewer, but some.
  lemma EditShape(es: seq<Entry>, action: Action)
    ensures Keys(Edit(es, action)) == Keys(es) || 0 < |Edit(es, action)| < |es|
  {
    match action
    case DeleteOne(k) =>
    case DeleteDisabled =>
      SurvivorCount(es);
      if CountStatus(es, AUTO_DISABLED) == |es| {
        assert Keys(EnableAll(es)) == Keys(es);
      }
    case _ => OnlyStatuses(es, action);
  }

  // The channel holds the edited list exactly when that can be stored.
  lemma EditsExactlyWhen(es: seq<Entry>, action: Action)
    ensures After(es, action) == Edit(es, action) <==> Storable(es, Edit(es, action))
  {
    EditShape(es, action);
    ReloadsExactlyWhen(es, Edit(es, action));
  }

  // Keys a, empty and b, the empty one disabled: deleting a leaves b, disabled.
  lemma EmptyKeyExample(a: Entry, empty: Entry, b: Entry)
    requires |a.key| > 0 && |empty.key| == 0 && |b.key| > 0
    requires a.status == b.status == ENABLED && empty.status == MANUALLY_DISABLED
    ensures After([a, empty, b], DeleteOne(Some(0))) == [empty.(key := b.key)]
  {
    var es := [a, empty, b];
    var rest := Edit(es, DeleteOne(Some(0)));
    assert rest == [empty, b];
    var keys' := Keys(rest);
    assert keys' == [empty.key, b.key] && keys'[1..] == [b.key];
    assert Strip(keys') == [b.key];
    assert |keys'| != |Keys(es)|;
  }

  // If delete_disabled_keys leaves nothing but one empty key, all keys stay: the first takes over what was stored
  // about that key and the others are enabled.
  lemma EmptySurvivor(es: seq<Entry>)
    requires |Survivors(es)| == 1 < |es| && |Survivors(es)[0].key| == 0
    ensures var after := After(es, DeleteDisabled);
      && Keys(after) == Keys(es) && after[0] == Survivors(es)[0].(key := es[0].key)
      && forall i :: 0 < i < |es| ==> after[i] == Enable(es[i])
  {
    SurvivorCount(es);
    assert Edit(es, DeleteDisabled) == Survivors(es);
    FewerReloaded(es, Survivors(es));
    assert Keys(After(es, DeleteDisabled)) == Keys(es);
  }

  // Three keys, the middle one empty, the others disabled automatically: two keys are reported as deleted, and all
  // stay, enabled.
  lemma EmptySurvivorExample(es: seq<Entry>)
    requires |es| == 3 && |es[1].key| == 0 && es[1].status == ENABLED
    requires es[0].status == AUTO_DISABLED && es[2].status == AUTO_DISABLED
    ensures After(es, DeleteDisabled) == EnableAll(es) && Answer(es, DeleteDisabled) == Done(2)
  {
    TwoGone(es);
    ComeBackEnabled(es, es[1]);
  }

  lemma ComeBackEnabled(es: seq<Entry>, e: Entry)
    requires Survivors(es) == [Enable(e)] && |es| > 1 && |e.key| == 0
    ensures After(es, DeleteDisabled) == EnableAll(es)
  {
    EmptySurvivor(es);
  }

  lemma TwoGone(es: seq<Entry>)
    requires |es| == 3 && es[1].status == ENABLED
    requires es[0].status == AUTO_DISABLED && es[2].status == AUTO_DISABLED
    ensures Survivors(es) == [Enable(es[1])] && CountStatus(es, AUTO_DISABLED) == 2
  {
    var none := es[..0];
    NextSurvivor(none, es[0]);
    NextSurvivor(none + [es[0]], es[1]);
    NextSurvivor(none + [es[0]] + [es[1]], es[2]);
    assert es == none + [es[0]] + [es[1]] + [es[2]];
  }

  lemma NextSurvivor(es: seq<Entry>, e: Entry)
    ensures CountStatus(es + [e], AUTO_DISABLED) ==
      CountStatus(es, AUTO_DISABLED) + if e.status == AUTO_DISABLED then 1 else 0
    ensures e.status == AUTO_DISABLED ==> Survivors(es + [e]) == Survivors(es)
    ensures e.status == ENABLED ==> Survivors(es + [e]) == Survivors(es) + [Enable(e)]
  {
    assert (es + [e])[..|es|] == es;
  }

  // Runs of requests: what the channel holds, and what it answered.

  function AfterAll(es: seq<Entry>, actions: seq<Action>): seq<Entry> {
    if |actions| == 0 then es
    else After(AfterAll(es, actions[..|actions| - 1]), actions[|actions| - 1])
  }

  function Answers(es: seq<Entry>, actions: seq<Action>): seq<Reply> {
    if |actions| == 0 then []
    else
      var before := actions[..|actions| - 1];
      Answers(es, before) + [Answer(AfterAll(es, before), actions[|actions| - 1])]
  }

  function EditAll(es: seq<Entry>, actions: seq<Action>): seq<Entry> {
    if |actions| == 0 then es
    else Edit(EditAll(es, actions[..|actions| - 1]), actions[|actions| - 1])
  }

  // Every list on the way can be stored.
  predicate StorableRun(es: seq<Entry>, actions: seq<Action>) {
    |actions| == 0 ||
    var before, last := actions[..|actions| - 1], actions[|actions| - 1];
    StorableRun(es, before) && Storable(AfterAll(es, before), Edit(AfterAll(es, before), last))
  }

  // The channel then holds the edited list throughout.
  lemma {:induction false} StorableRunEdits(es: seq<Entry>, actions: seq<Action>)
    requires StorableRun(es, actions)
    ensures AfterAll(es, actions) == EditAll(es, actions)
  {
    if |actions| > 0 {
      var before, last := actions[..|actions| - 1], actions[|actions| - 1];
      StorableRunEdits(es, before);
      EditsExactlyWhen(AfterAll(es, before), last);
    }
  }

  // No key is empty, so any part of the list can be stored as one string.
  predicate Plain(es: seq<Entry>) {
    forall i :: 0 <= i < |es| ==> |es[i].key| > 0
  }

  lemma {:induction false} SurvivorsPlain(es: seq<Entry>)
    requires Plain(es)
    ensures Plain(Survivors(es))
  {
    if |es| > 0 {
      SurvivorsPlain(es[..|es| - 1]);
    }
  }

  lemma EditKeepsPlain(es: seq<Entry>, action: Action)
    requires Plain(es)
    ensures Plain(Edit(es, action)) && Storable(es, Edit(es, action))
  {
    SurvivorsPlain(es);
  }

  lemma {:induction false} PlainRunIsStorable(es: seq<Entry>, actions: seq<Action>)
    requires Plain(es)
    ensures Plain(AfterAll(es, actions)) && StorableRun(es, actions)
  {
    if |actions| > 0 {
      var before, last := actions[..|actions| - 1], actions[|actions| - 1];
      PlainRunIsStorable(es, before);
      EditKeepsPlain(AfterAll(es, before), last);
      EditsExactlyWhen(AfterAll(es, before), last);
    }
  }

  // What get_key_status shows

  datatype Record = Record(key: string, status: int, time: int, reason: string)

  function Show(e: Entry): Record {
    if e.status == ENABLED then Record(e.key, e.status, 0, "")
    else Record(e.key, e.status, TimeOf(e), ReasonOf(e))
  }

  function TimeOf(e: Entry): int {
    if e.time.Some? then e.time.value else 0
  }

  function ReasonOf(e: Entry): string {
    if e.reason.Some? then e.reason.value else ""
  }

  function Shown(es: seq<Entry>): (rs: seq<Record>)
    ensures |rs| == |es| && forall i :: 0 <= i < |es| ==> rs[i] == Show(es[i])
  {
    seq(|es|, i requires 0 <= i < |es| => Show(es[i]))
  }

  // The same requests as edits of a plain list of records.

  function DisableRecord(r: Record): Record {
    r.(status := MANUALLY_DISABLED)
  }

  function EnableRecord(r: Record): Record {
    Record(r.key, ENABLED, 0, "")
  }

  function EnableRecords(rs: seq<Record>): (r: seq<Record>)
    ensures |r| == |rs| && forall i :: 0 <= i < |rs| ==> r[i] == EnableRecord(rs[i])
  {
    seq(|rs|, i requires 0 <= i < |rs| => EnableRecord(rs[i]))
  }

  function DisableRecords(rs: seq<Record>): (r: seq<Record>)
    ensures |r| == |rs| && forall i :: 0 <= i < |rs| ==>
      r[i] == if rs[i].status == ENABLED then DisableRecord(rs[i]) else rs[i]
  {
    seq(|rs|, i requires 0 <= i < |rs| => if rs[i].status == ENABLED then DisableRecord(rs[i]) else rs[i])
  }

  function RecordSurvivors(rs: seq<Record>): seq<Record> {
    if |rs| == 0 then []
    else
      var last := rs[|rs| - 1];
      RecordSurvivors(rs[..|rs| - 1]) + (if last.status == AUTO_DISABLED then [] else [last])
  }

  function EditRecords(rs: seq<Record>, action: Action): seq<Record> {
    match action
    case DisableOne(k) =>
      if k.Some? && 0 <= k.value < |rs| then rs[k.value := DisableRecord(rs[k.value])] else rs
    case EnableOne(k) =>
      if k.Some? && 0 <= k.value < |rs| then rs[k.value := EnableRecord(rs[k.value])] else rs
    case EnableEvery => EnableRecords(rs)
    case DisableEvery => DisableRecords(rs)
    case DeleteOne(k) =>
      if k.Some? && 0 <= k.value < |rs| && |rs| > 1 then rs[..k.value] + rs[k.value + 1..] else rs
    case DeleteDisabled => RecordSurvivors(rs)
  }

  function EditAllRecords(rs: seq<Record>, actions: seq<Action>): seq<Record> {
    if |actions| == 0 then rs
    else EditRecords(EditAllRecords(rs, actions[..|actions| - 1]), actions[|actions| - 1])
  }

  // Nothing is stored about an enabled key beside the key: the disabled times and reasons are those of keys
  // with a status.
  predicate Fresh(e: Entry) {
    e.status == ENABLED ==> e.time.None? && e.reason.None?
  }

  predicate AllFresh(es: seq<Entry>) {
    forall i :: 0 <= i < |es| ==> Fresh(es[i])
  }

  // An enabled key that would show an old time or reason once it is disabled.
  predicate Stale(e: Entry) {
    e.status == ENABLED && (TimeOf(e) != 0 || ReasonOf(e) != "")
  }

  // The request disables a stale key.
  predicate DisablesStale(es: seq<Entry>, action: Action) {
    match action
    case DisableOne(k) => InRange(es, k) && Stale(es[k.value])
    case DisableEvery => exists i :: 0 <= i < |es| && Stale(es[i])
    case _ => false
  }

  lemma {:induction false} ShownSurvivors(es: seq<Entry>)
    ensures Shown(Survivors(es)) == RecordSurvivors(Shown(es))
  {
    if |es| > 0 {
      ShownSurvivors(es[..|es| - 1]);
      assert Shown(es)[..|es| - 1] == Shown(es[..|es| - 1]);
    }
  }

  lemma {:induction false} AllSurvive(es: seq<Entry>)
    requires CountStatus(es, AUTO_DISABLED) == 0
    ensures RecordSurvivors(Shown(es)) == Shown(es)
  {
    if |es| > 0 {
      AllSurvive(es[..|es| - 1]);
      assert Shown(es)[..|es| - 1] == Shown(es[..|es| - 1]);
    }
  }

  // All there is to delete is all there is.
  predicate Empties(es: seq<Entry>, action: Action) {
    action.DeleteDisabled? && |es| > 0 && CountStatus(es, AUTO_DISABLED) == |es|
  }

  lemma ShownDeleted(es: seq<Entry>)
    ensures Shown(Edit(es, DeleteDisabled)) == RecordSurvivors(Shown(es)) <==>
            |es| == 0 || CountStatus(es, AUTO_DISABLED) < |es|
  {
    ShownSurvivors(es);
    SurvivorCount(es);
    if CountStatus(es, AUTO_DISABLED) == 0 {
      AllSurvive(es);
    }
  }

  lemma ShownDisableOne(es: seq<Entry>, k: Option<int>)
    ensures Shown(Edit(es, DisableOne(k))) == EditRecords(Shown(es), DisableOne(k)) <==>
      !DisablesStale(es, DisableOne(k))
  {
    if InRange(es, k) {
      var left, right := Shown(Edit(es, DisableOne(k))), EditRecords(Shown(es), DisableOne(k));
      assert left[k.value] == right[k.value] <==> !Stale(es[k.value]);
      assert forall i :: 0 <= i < |es| && i != k.value ==> left[i] == right[i];
    }
  }

  lemma ShownDisableEvery(es: seq<Entry>)
    ensures Shown(DisableAll(es)) == DisableRecords(Shown(es)) <==> !DisablesStale(es, DisableEvery)
  {
    var left, right := Shown(DisableAll(es)), DisableRecords(Shown(es));
    forall i | 0 <= i < |es| ensures left[i] == right[i] <==> !Stale(es[i]) {
    }
  }

  lemma EditShows(es: seq<Entry>, action: Action)
    ensures Shown(Edit(es, action)) == EditRecords(Shown(es), action) <==>
            !DisablesStale(es, action) && !Empties(es, action)
  {
    match action
    case DisableOne(k) => ShownDisableOne(es, k);
    case DisableEvery => ShownDisableEvery(es);
    case DeleteDisabled =>
      ShownDeleted(es);
      CountAtMost(es, AUTO_DISABLED);
    case DeleteOne(k) => ShownDeleteOne(es, k);
    case _ =>
  }

  lemma ShownDeleteOne(es: seq<Entry>, k: Option<int>)
    ensures Shown(Edit(es, DeleteOne(k))) == EditRecords(Shown(es), DeleteOne(k))
  {
  }

  // What is read back shows as the list that was stored only if it is that list.
  lemma ShownKeys(es: seq<Entry>, es': seq<Entry>)
    requires Shown(Reloaded(es, es')) == Shown(es')
    ensures Reloaded(es, es') == es'
  {
    var r := Reloaded(es, es');
    assert |r| == |es'|;
    forall i | 0 <= i < |r| ensures r[i] == es'[i] {
      assert Shown(r)[i].key == Shown(es')[i].key;
    }
  }

  // A request does to what is shown what the record edit says, exactly when the edited list can be stored and the
  // request disables no stale key and is not to delete every key.
  lemma ShowsExactlyWhen(es: seq<Entry>, action: Action)
    ensures Shown(After(es, action)) == EditRecords(Shown(es), action) <==>
            Storable(es, Edit(es, action)) && !DisablesStale(es, action) && !Empties(es, action)
  {
    EditShows(es, action);
    EditsExactlyWhen(es, action);
    if !Storable(es, Edit(es, action)) {
      FewerOnly(es, action);
      if Shown(After(es, action)) == EditRecords(Shown(es), action) {
        ShownKeys(es, Edit(es, action));
      }
    }
  }

  // Only a deletion that leaves some key can leave a list that cannot be stored.
  lemma FewerOnly(es: seq<Entry>, action: Action)
    requires !Storable(es, Edit(es, action))
    ensures !DisablesStale(es, action) && !Empties(es, action)
  {
    if action.DeleteDisabled? {
      assert Keys(EnableAll(es)) == Keys(es);
    } else if !action.DeleteOne? {
      OnlyStatuses(es, action);
    }
  }

  // Nothing was to be deleted, or what stays has no empty end.
  predicate DeletesPlainly(es: seq<Entry>) {
    CountStatus(es, AUTO_DISABLED) == 0 || (|Survivors(es)| > 0 && Readable(Keys(Survivors(es))))
  }

  lemma DeletesPlainlyIs(es: seq<Entry>)
    ensures DeletesPlainly(es) <==> Storable(es, Edit(es, DeleteDisabled)) && !Empties(es, DeleteDisabled)
  {
    SurvivorCount(es);
    EditShape(es, DeleteDisabled);
  }

  // delete_disabled_keys leaves exactly what was not disabled automatically.
  lemma DeletesExactlyWhen(es: seq<Entry>)
    ensures Shown(After(es, DeleteDisabled)) == RecordSurvivors(Shown(es)) <==> DeletesPlainly(es)
  {
    ShowsExactlyWhen(es, DeleteDisabled);
    DeletesPlainlyIs(es);
  }

  lemma {:induction false} SurvivorsFresh(es: seq<Entry>)
    requires AllFresh(es)
    ensures AllFresh(Survivors(es))
  {
    if |es| > 0 {
      SurvivorsFresh(es[..|es| - 1]);
    }
  }

  lemma EditKeepsFresh(es: seq<Entry>, action: Action)
    requires AllFresh(es)
    ensures AllFresh(Edit(es, action)) && !DisablesStale(es, action)
  {
    SurvivorsFresh(es);
  }

  lemma AfterKeepsFresh(es: seq<Entry>, action: Action)
    requires AllFresh(es)
    ensures AllFresh(After(es, action)) && !DisablesStale(es, action)
  {
    EditKeepsFresh(es, action);
  }

  // Every request of a run does to what is shown what the record edit says.
  predicate ActsPlainly(es: seq<Entry>, actions: seq<Action>) {
    |actions| == 0 ||
    var before, last := actions[..|actions| - 1], actions[|actions| - 1];
    ActsPlainly(es, before) &&
    Shown(After(AfterAll(es, before), last)) == EditRecords(Shown(AfterAll(es, before)), last)
  }

  // No request of a run is to delete every key.
  predicate NeverEmpties(es: seq<Entry>, actions: seq<Action>) {
    |actions| == 0 ||
    var before, last := actions[..|actions| - 1], actions[|actions| - 1];
    NeverEmpties(es, before) && !Empties(AfterAll(es, before), last)
  }

  // Over every run times and reasons stay tied to statuses, and every request is plain exactly when every list on
  // the way can be stored and no request is to delete every key.
  lemma {:induction false} RunActsPlainlyExactlyWhen(es: seq<Entry>, actions: seq<Action>)
    requires AllFresh(es)
    ensures AllFresh(AfterAll(es, actions))
    ensures ActsPlainly(es, actions) <==> StorableRun(es, actions) && NeverEmpties(es, actions)
  {
    if |actions| > 0 {
      var before, last := actions[..|actions| - 1], actions[|actions| - 1];
      RunActsPlainlyExactlyWhen(es, before);
      AfterKeepsFresh(AfterAll(es, before), last);
      ShowsExactlyWhen(AfterAll(es, before), last);
    }
  }

  // The list shown is then the result of the plain record edits.
  lemma {:induction false} RunShows(es: seq<Entry>, actions: seq<Action>)
    requires AllFresh(es) && StorableRun(es, actions) && NeverEmpties(es, actions)
    ensures Shown(AfterAll(es, actions)) == EditAllRecords(Shown(es), actions)
  {
    if |actions| > 0 {
      RunShows(es, actions[..|actions| - 1]);
      RunActsPlainlyExactlyWhen(es, actions);
    }
  }

  // One key, disabled automatically: deleting it enables it.
  lemma OnlyKeyComesBack(e: Entry)
    requires e.status == AUTO_DISABLED
    ensures After([e], DeleteDisabled) == [Enable(e)] && Answer([e], DeleteDisabled) == Done(1)
  {
    NextSurvivor([], e);
    assert [] + [e] == [e];
    AllEnabled([e]);
    assert EnableAll([e]) == [Enable(e)];
  }

  // When every key is to be deleted, every key is enabled.
  lemma AllEnabled(es: seq<Entry>)
    requires |es| > 0 && CountStatus(es, AUTO_DISABLED) == |es|
    ensures After(es, DeleteDisabled) == EnableAll(es)
  {
    assert Keys(EnableAll(es)) == Keys(es);
  }

  // How many of the first n entries have another status.
  function StatusChanges(es: seq<Entry>, es': seq<Entry>, n: nat): nat
    requires n <= |es| && n <= |es'|
  {
    if n == 0 then 0
    else StatusChanges(es, es', n - 1) + (if es[n - 1].status != es'[n - 1].status then 1 else 0)
  }

  lemma {:induction false} EnabledChanges(es: seq<Entry>, n: nat)
    requires n <= |es|
    ensures StatusChanges(es, EnableAll(es), n) + CountStatus(es[..n], ENABLED) == n
    ensures StatusChanges(es, DisableAll(es), n) == CountStatus(es[..n], ENABLED)
  {
    if n > 0 {
      EnabledChanges(es, n - 1);
      assert es[..n][..n - 1] == es[..n - 1];
    }
  }

  // The counts reported by enabling and disabling all are the numbers of keys that changed.
  lemma CountsAreChanges(es: seq<Entry>)
    ensures var after := After(es, EnableEvery);
      |after| == |es| && Answer(es, EnableEvery) == Done(StatusChanges(es, after, |es|))
    ensures var after := After(es, DisableEvery);
      |after| == |es| && Answer(es, DisableEvery) == SomeAnswer(StatusChanges(es, after, |es|))
  {
    OnlyStatuses(es, EnableEvery);
    OnlyStatuses(es, DisableEvery);
    EnabledChanges(es, |es|);
    assert es[..|es|] == es;
  }

  // The count reported by deleting the disabled keys is the number of keys that are gone exactly when nothing was
  // to be deleted or what stays has no empty end. When every key was to be deleted, it is the number of keys that
  // were enabled instead, and none is gone.
  lemma CountIsGoneExactlyWhen(es: seq<Entry>)
    ensures Answer(es, DeleteDisabled) == SomeAnswer(CountStatus(es, AUTO_DISABLED))
    ensures |es| - |After(es, DeleteDisabled)| == CountStatus(es, AUTO_DISABLED) <==> DeletesPlainly(es)
    ensures CountStatus(es, AUTO_DISABLED) == |es| ==>
      |After(es, DeleteDisabled)| == |es| && StatusChanges(es, After(es, DeleteDisabled), |es|) == |es|
  {
    SurvivorCount(es);
    if CountStatus(es, AUTO_DISABLED) == |es| {
      AllComeBack(es);
    } else if CountStatus(es, AUTO_DISABLED) == 0 {
      NoneDeleted(es);
    } else {
      SomeDeleted(es);
      ReloadedLength(es, Survivors(es));
    }
  }

  lemma NoneDeleted(es: seq<Entry>)
    requires CountStatus(es, AUTO_DISABLED) == 0
    ensures After(es, DeleteDisabled) == es
  {
  }

  lemma SomeDeleted(es: seq<Entry>)
    requires 0 < CountStatus(es, AUTO_DISABLED) < |es|
    ensures After(es, DeleteDisabled) == Reloaded(es, Survivors(es)) && 0 < |Survivors(es)| < |es|
  {
    SurvivorCount(es);
  }

  // As many keys are read back as were stored exactly when none was lost.
  lemma ReloadedLength(es: seq<Entry>, rest: seq<Entry>)
    requires 0 < |rest| < |es|
    ensures |Reloaded(es, rest)| == |rest| <==> Readable(Keys(rest))
  {
    FewerReloaded(es, rest);
    var keys := Keys(rest);
    StripsExactlyWhen(keys);
    StripLength(keys);
    assert |Reloaded(es, rest)| == |Reread(Keys(es), keys)|;
  }

  lemma AllComeBack(es: seq<Entry>)
    requires CountStatus(es, AUTO_DISABLED) == |es|
    ensures |After(es, DeleteDisabled)| == |es| && StatusChanges(es, After(es, DeleteDisabled), |es|) == |es|
  {
    assert es[..|es|] == es;
    AllAuto(es, |es|);
    if |es| > 0 {
      AllEnabled(es);
    }
  }

  lemma {:induction false} AllAuto(es: seq<Entry>, n: nat)
    requires n <= |es| && CountStatus(es[..n], AUTO_DISABLED) == n
    ensures StatusChanges(es, EnableAll(es), n) == n
  {
    if n > 0 {
      assert es[..n][..n - 1] == es[..n - 1];
      CountAtMost(es[..n - 1], AUTO_DISABLED);
      AllAuto(es, n - 1);
    }
  }

  // Reports from the relay

  function FirstKey(es: seq<Entry>, usingKey: string): (i: nat)
    ensures i <= |es| && (i < |es| ==> es[i].key == usingKey)
    ensures forall j :: 0 <= j < i ==> es[j].key != usingKey
  {
    if |es| == 0 || es[0].key == usingKey then 0 else FirstKey(es[1..], usingKey) + 1
  }

  function AutoEdit(es: seq<Entry>, usingKey: string, newStatus: int, why: string, now: int): seq<Entry> {
    var i := FirstKey(es, usingKey);
    if i == |es| then es
    else if newStatus == ENABLED then es[i := es[i].(status := ENABLED)]
    else es[i := Entry(usingKey, newStatus, Some(now), Some(why))]
  }

  lemma FirstIs(es: seq<Entry>, usingKey: string, i: nat)
    requires i <= |es| && (i < |es| ==> es[i].key == usingKey)
    requires forall j :: 0 <= j < i ==> es[j].key != usingKey
    ensures FirstKey(es, usingKey) == i
  {
    var k := FirstKey(es, usingKey);
    assert k < |es| ==> es[k].key == usingKey;
  }

  // A report keeps times and reasons tied to statuses exactly when it does not enable a key that has either.
  lemma AutoKeepsFreshExactlyWhen(es: seq<Entry>, usingKey: string, newStatus: int, why: string, now: int)
    requires AllFresh(es)
    ensures var i := FirstKey(es, usingKey);
      AllFresh(AutoEdit(es, usingKey, newStatus, why, now)) <==>
      !(i < |es| && newStatus == ENABLED && (es[i].time.Some? || es[i].reason.Some?))
  {
    var i, es' := FirstKey(es, usingKey), AutoEdit(es, usingKey, newStatus, why, now);
    if i < |es| {
      assert AllFresh(es') ==> Fresh(es'[i]);
    }
  }

  // Disabled by a report, enabled by a report, then disabled by hand: the old time and reason show again.
  lemma StaleReasonShows(key: string, why: string, now: int)
    requires now != 0
    ensures var es := [Entry(key, ENABLED, None, None)];
      var reported := AutoEdit(AutoEdit(es, key, AUTO_DISABLED, why, now), key, ENABLED, "", now);
      && DisablesStale(reported, DisableOne(Some(0)))
      && Shown(After(reported, DisableOne(Some(0)))) == [Record(key, MANUALLY_DISABLED, now, why)]
  {
    var es := [Entry(key, ENABLED, None, None)];
    assert FirstKey(es, key) == 0;
    assert AutoEdit(es, key, AUTO_DISABLED, why, now) == [Entry(key, AUTO_DISABLED, Some(now), Some(why))];
    OnlyStatuses([Entry(key, ENABLED, Some(now), Some(why))], DisableOne(Some(0)));
  }

  // Listing

  datatype KeyStatus = KeyStatus(index: nat, record: Record)

  datatype Listing = Listing(keys: seq<KeyStatus>, total: nat, page: int, pageSize: int, totalPages: int,
                             enabled: nat, manual: nat, auto: nat)

  function Indexed(es: seq<Entry>): (list: seq<KeyStatus>)
    ensures |list| == |es| && forall i :: 0 <= i < |es| ==> list[i] == KeyStatus(i, Show(es[i]))
  {
    seq(|es|, i requires 0 <= i < |es| => KeyStatus(i, Show(es[i])))
  }

  function Filtered(list: seq<KeyStatus>, filter: Option<int>): (r: seq<KeyStatus>)
    ensures forall s :: s in r <==> s in list && (filter.Some? ==> s.record.status == filter.value)
  {
    if filter.None? then list
    else if |list| == 0 then []
    else
      var last := list[|list| - 1];
      assert list == list[..|list| - 1] + [last];
      Filtered(list[..|list| - 1], filter) + (if last.record.status == filter.value then [last] else [])
  }

  function RecordAt(list: seq<KeyStatus>, default: KeyStatus): nat -> KeyStatus {
    (i: nat) => if i < |list| then list[i] else default
  }

  function HasStatus(list: seq<KeyStatus>, status: int): nat -> bool {
    (i: nat) => i < |list| && list[i].record.status == status
  }

  // A filter keeps every key of the status asked for, once and in order.
  lemma {:induction false} FilteredIs(list: seq<KeyStatus>, status: int, n: nat, default: KeyStatus)
    returns (places: seq<nat>)
    requires n <= |list|
    ensures Picked(places, n, HasStatus(list, status))
    ensures FoundAt(Filtered(list[..n], Some(status)), places, RecordAt(list, default))
  {
    places := [];
    if n > 0 {
      places := FilteredIs(list, status, n - 1, default);
      assert list[..n][..n - 1] == list[..n - 1];
      places := PickNext(Filtered(list[..n - 1], Some(status)), Filtered(list[..n], Some(status)), places, n - 1,
                         HasStatus(list, status), RecordAt(list, default));
    }
  }

  function TotalPages(n: nat, size: int): (pages: int)
    requires size > 0
    ensures pages >= 1
  {
    var pages := (n + size - 1) / size;
    if pages == 0 then 1 else pages
  }

  function PageOf<T>(xs: seq<T>, page: int, size: int): seq<T>
    requires page >= 1 && size >= 1
  {
    SliceFrom(xs, (page - 1) * size, size)
  }

  function SliceFrom<T>(xs: seq<T>, start: int, size: int): seq<T>
    requires start >= 0 && size >= 1
  {
    var end := if start + size > |xs| then |xs| else start + size;
    if start < |xs| then xs[start..end] else []
  }

  // Pages 1 to k, one after the other.
  function Pages<T>(xs: seq<T>, size: int, k: nat): seq<T>
    requires size >= 1
  {
    if k == 0 then [] else Pages(xs, size, k - 1) + PageOf(xs, k, size)
  }

  function UpTo<T>(xs: seq<T>, n: nat): seq<T> {
    if n <= |xs| then xs[..n] else xs
  }

  lemma NextSlice<T>(xs: seq<T>, start: nat, size: int)
    requires size >= 1
    ensures UpTo(xs, start) + SliceFrom(xs, start, size) == UpTo(xs, start + size)
  {
  }

  lemma {:induction false} FirstPages<T>(xs: seq<T>, size: int, k: nat)
    requires size >= 1
    ensures k * size >= 0 && Pages(xs, size, k) == UpTo(xs, k * size)
  {
    if k > 0 {
      FirstPages(xs, size, k - 1);
      NextSlice(xs, (k - 1) * size, size);
      assert k * size == (k - 1) * size + size;
    }
  }

  // Enough pages for all of them.
  lemma PagesReach(n: nat, size: int)
    requires size >= 1
    ensures TotalPages(n, size) * size >= n
  {
    var m := n + size - 1;
    assert m == size * (m / size) + m % size;
  }

  // No more pages than needed: all before the last are full, and the last is not empty unless it is the only one.
  lemma PagesAreFull<T>(xs: seq<T>, size: int, page: int)
    requires size >= 1 && 1 <= page <= TotalPages(|xs|, size)
    ensures page < TotalPages(|xs|, size) ==> |PageOf(xs, page, size)| == size
    ensures |xs| > 0 ==> 1 <= |PageOf(xs, page, size)| <= size
  {
    if |xs| > 0 {
      LastPageIsNeeded(|xs|, size);
      PageStart(page, TotalPages(|xs|, size), size);
    }
  }

  lemma LastPageIsNeeded(n: nat, size: int)
    requires size >= 1 && n > 0
    ensures (TotalPages(n, size) - 1) * size < n
  {
    var m := n + size - 1;
    assert m == size * (m / size) + m % size;
    assert (m / size - 1) * size == size * (m / size) - size;
  }

  lemma PageStart(page: int, pages: int, size: int)
    requires size >= 1 && 1 <= page <= pages
    ensures 0 <= (page - 1) * size <= (pages - 1) * size
    ensures page < pages ==> (page - 1) * size + size <= (pages - 1) * size
  {
    Whole(pages - page, size);
    assert (pages - page) * size == (pages - 1) * size - (page - 1) * size;
    Whole(page, size);
    assert (page - 1) * size == page * size - size;
  }

  // Every filtered key is on exactly one page.
  lemma PagesConcatenate<T>(xs: seq<T>, size: int)
    requires size >= 1
    ensures Pages(xs, size, TotalPages(|xs|, size)) == xs
  {
    FirstPages(xs, size, TotalPages(|xs|, size));
    PagesReach(|xs|, size);
  }

  // Appending keys

  function Added(keys: seq<string>): (es: seq<Entry>)
    ensures |es| == |keys| && forall i :: 0 <= i < |keys| ==> es[i] == Entry(keys[i], ENABLED, None, None)
  {
    seq(|keys|, i requires 0 <= i < |keys| => Entry(keys[i], ENABLED, None, None))
  }

  // The lines of the request that are new: trimmed, not empty, once each, in order.
  function NewKeys(existing: seq<string>, lines: seq<string>): seq<string> {
    Minus(Normalize(lines), Elements(Cleaned(existing)))
  }

  // One of the lines is the key once it is trimmed.
  predicate Occurs(lines: seq<string>, key: string) {
    exists i :: 0 <= i < |lines| && TrimSpace(lines[i]) == key
  }

  lemma {:induction false} InCleaned(lines: seq<string>, key: string)
    ensures key in Cleaned(lines) <==> |key| > 0 && Occurs(lines, key)
  {
    if |lines| > 0 {
      var n := |lines| - 1;
      InCleaned(lines[..n], key);
      CleanedNext(lines, n);
      assert lines[..n + 1] == lines;
      OccursNext(lines, n, key);
    }
  }

  lemma OccursNext(lines: seq<string>, n: nat, key: string)
    requires n < |lines|
    ensures Occurs(lines[..n + 1], key) <==> Occurs(lines[..n], key) || TrimSpace(lines[n]) == key
  {
    assert lines[..n + 1] == lines[..n] + [lines[n]];
    assert lines[..n + 1][n] == lines[n];
    if Occurs(lines[..n], key) {
      var i :| 0 <= i < n && TrimSpace(lines[..n][i]) == key;
      assert lines[..n + 1][i] == lines[..n][i];
    }
  }

  // A line that brings a new key: it is not blank, no line before it is the same once trimmed, and neither is an
  // existing key.
  predicate Brings(existing: seq<string>, lines: seq<string>, k: nat) {
    && k < |lines| && |TrimSpace(lines[k])| > 0
    && !Occurs(lines[..k], TrimSpace(lines[k])) && !Occurs(existing, TrimSpace(lines[k]))
  }

  function BringsKey(existing: seq<string>, lines: seq<string>): nat -> bool {
    (k: nat) => Brings(existing, lines, k)
  }

  lemma BringsIs(existing: seq<string>, lines: seq<string>, n: nat)
    requires n < |lines|
    ensures var key := TrimSpace(lines[n]);
      Brings(existing, lines, n) <==> |key| > 0 && key !in Cleaned(lines[..n]) && key !in Cleaned(existing)
  {
    var key := TrimSpace(lines[n]);
    InCleaned(lines[..n], key);
    InCleaned(existing, key);
  }

  ghost predicate NewUpTo(existing: seq<string>, lines: seq<string>, n: nat, places: seq<nat>) {
    && n <= |lines| && Picked(places, n, BringsKey(existing, lines))
    && FoundAt(NewKeys(existing, lines[..n]), places, TrimmedAt(lines))
  }

  // The new keys are those of the lines that bring one, trimmed and in order.
  lemma {:induction false} NewKeysAre(existing: seq<string>, lines: seq<string>, n: nat) returns (places: seq<nat>)
    requires n <= |lines|
    ensures NewUpTo(existing, lines, n, places)
  {
    if n == 0 {
      places := [];
      NoNewKeys(existing, lines);
    } else {
      places := NewKeysAre(existing, lines, n - 1);
      places := OneMoreKey(existing, lines, n - 1, places);
    }
  }

  lemma NoNewKeys(existing: seq<string>, lines: seq<string>)
    ensures NewUpTo(existing, lines, 0, [])
  {
    assert |NewKeys(existing, lines[..0])| == 0;
  }

  lemma OneMoreKey(existing: seq<string>, lines: seq<string>, n: nat, places: seq<nat>) returns (next: seq<nat>)
    requires n < |lines| && NewUpTo(existing, lines, n, places)
    ensures NewUpTo(existing, lines, n + 1, next)
  {
    NextNewKey(existing, lines, n);
    next := PickNext(NewKeys(existing, lines[..n]), NewKeys(existing, lines[..n + 1]), places, n,
                     BringsKey(existing, lines), TrimmedAt(lines));
  }

  lemma NextNewKey(existing: seq<string>, lines: seq<string>, n: nat)
    requires n < |lines|
    ensures NewKeys(existing, lines[..n + 1]) ==
      NewKeys(existing, lines[..n]) + if BringsKey(existing, lines)(n) then [TrimmedAt(lines)(n)] else []
  {
    var cleaned, key := Cleaned(lines[..n]), TrimSpace(lines[n]);
    CleanedNext(lines, n);
    BringsIs(existing, lines, n);
    if |key| > 0 {
      NextUnseen(cleaned, Cleaned(existing), key);
    } else {
      assert Cleaned(lines[..n + 1]) == cleaned;
    }
  }

  lemma NextUnseen(cleaned: seq<string>, known: seq<string>, key: string)
    ensures Minus(Uniq(cleaned + [key]), Elements(known)) ==
      Minus(Uniq(cleaned), Elements(known)) + if key in cleaned || key in known then [] else [key]
  {
    UnseenNext(cleaned, Elements(known), key);
  }

  // Answers and effects

  // A request that is refused, or finds nothing to do, changes nothing.
  lemma RefusedChangesNothing(es: seq<Entry>, action: Action)
    requires !Answer(es, action).Done?
    ensures After(es, action) == es
  {
    if action.DisableEvery? {
      NoneToDisable(es);
    }
    assert Edit(es, action) == es;
  }

  // One on a single key is done exactly when the key is there and, if it is to be deleted, is not the only one.
  lemma OneKeyAnswers(es: seq<Entry>, action: Action)
    requires action.DisableOne? || action.EnableOne? || action.DeleteOne?
    ensures Answer(es, action) == NoIndex <==> action.k.None?
    ensures Answer(es, action) == OutOfRange <==> action.k.Some? && !(0 <= action.k.value < |es|)
    ensures Answer(es, action) == LastKey <==> action.DeleteOne? && action.k == Some(0) && |es| == 1
    ensures Answer(es, action) == Done(1) <==>
      action.k.Some? && 0 <= action.k.value < |es| && (action.DeleteOne? ==> |es| > 1)
  {
  }

  // A report changes the first entry with the key in use and no other: it gets the status and, if it is disabled,
  // the time and the reason.
  lemma ReportChangesOne(es: seq<Entry>, usingKey: string, newStatus: int, why: string, now: int)
    ensures var es' := AutoEdit(es, usingKey, newStatus, why, now);
      && |es'| == |es|
      && forall i :: 0 <= i < |es| ==>
           if es[i].key == usingKey && forall j :: 0 <= j < i ==> es[j].key != usingKey then
             && es'[i].key == usingKey && es'[i].status == newStatus
             && (newStatus != ENABLED ==> es'[i].time == Some(now) && es'[i].reason == Some(why))
             && (newStatus == ENABLED ==> es'[i].time == es[i].time && es'[i].reason == es[i].reason)
           else es'[i] == es[i]
  {
  }
}
