/**
 Multi-key channels (`ManageMultiKeys` and the append block of `UpdateChannel` in controller/channel.go, with
 `Channel.Update`, `Channel.GetKeys` and `handlerMultiKeyUpdate` of model/channel.go). A channel row stores its
 keys as one newline-separated string and, beside it, three maps from key index to status, disabled time and
 disabled reason. Every request is an in-place rebuild of that row; the class is proved to hold, after every run
 of requests, what `KeyList` says is left of the edited lists once their keys are stored as one string.
 */
module MultiKey {
  import opened Basics
  import opened Text
  import opened KeyList

  // The three maps of a row.
  datatype Info = Info(status: map<nat, int>, time: map<nat, int>, reason: map<nat, string>)

  const NO_INFO := Info(map[], map[], map[])

  function Lookup<T>(m: map<nat, T>, i: nat): Option<T> {
    if i in m then Some(m[i]) else None
  }

  function StatusAt(status: map<nat, int>, i: nat): int {
    if i in status then status[i] else ENABLED
  }

  function EntryAt(key: string, i: nat, info: Info): Entry {
    Entry(key, StatusAt(info.status, i), Lookup(info.time, i), Lookup(info.reason, i))
  }

  function Entries(keys: seq<string>, info: Info): (es: seq<Entry>)
    ensures |es| == |keys|
    ensures forall i :: 0 <= i < |keys| ==> es[i] == EntryAt(keys[i], i, info)
  {
    seq(|keys|, i requires 0 <= i < |keys| => EntryAt(keys[i], i, info))
  }

  predicate IsDisabled(status: int) {
    status == MANUALLY_DISABLED || status == AUTO_DISABLED
  }

  // Statuses are those of the first n keys, and an enabled key has none.
  predicate StatusOk(n: int, info: Info) {
    forall i :: i in info.status ==> i < n && IsDisabled(info.status[i])
  }

  // So are times and reasons.
  predicate NoneBehind(n: int, info: Info) {
    (forall i :: i in info.time ==> i < n) && (forall i :: i in info.reason ==> i < n)
  }

  // There is no time and no reason at these places.
  predicate NoneAt(info: Info, from: int, to: int) {
    forall i: nat :: from <= i < to ==> i !in info.time && i !in info.reason
  }

  // The representation invariant of a row, and the list it stands for. Times and reasons may be left behind the
  // last key.

  predicate RowOk(key: string, size: int, info: Info) {
    size == |ReadList(key, '\n')| && StatusOk(size, info)
  }

  function RowView(key: string, info: Info): seq<Entry> {
    Entries(ReadList(key, '\n'), info)
  }

  function Below(status: map<nat, int>, n: int): (r: map<nat, int>)
    ensures (forall i :: i in status ==> i < n) ==> r == status
  {
    map i | i in status && i < n :: status[i]
  }

  // What a request does: it answers as specified and leaves what the edited list is reloaded as. That is the edited
  // list exactly when it can be stored, and it shows as the plain edit of what was shown exactly when, besides, no
  // stale key is disabled and not every key was to be deleted.
  predicate Managed(es: seq<Entry>, action: Action, reply: Reply, view: seq<Entry>) {
    && reply == Answer(es, action)
    && view == After(es, action)
    && (view == Edit(es, action) <==> Storable(es, Edit(es, action)))
    && (Shown(view) == EditRecords(Shown(es), action) <==>
        Storable(es, Edit(es, action)) && !DisablesStale(es, action) && !Empties(es, action))
  }

  // A list that was stored in place of another, as it is read back.
  predicate Stored(es: seq<Entry>, rest: seq<Entry>, view: seq<Entry>) {
    view == Relabel(Reread(Keys(es), Keys(rest)), rest)
  }

  // What appending does to a row with these keys, maps and entries: the new keys are put over what is stored at
  // every place. Where no old end is lost this adds the new keys, enabled and with nothing stored about them,
  // exactly when nothing was left behind in their places.
  predicate AppendedTo(key: string, input: string, info: Info, es: seq<Entry>, view: seq<Entry>) {
    PutOver(Appended(key, input), Additions(key, input), info, es, view)
  }

  predicate PutOver(keys: seq<string>, added: seq<string>, info: Info, es: seq<Entry>, view: seq<Entry>) {
    && view == Entries(keys, info)
    && (NoneBehind(|es|, info) ==> view == Relabel(keys, es))
    && (Readable(Keys(es)) ==> (view == es + Added(added) <==> NoneAt(info, |es|, |es| + |added|)))
  }

  // The stored row

  class MultiKeyChannel {
    var key: string
    var size: int
    var info: Info

    ghost predicate Valid()
      reads this
    {
      RowOk(key, size, info)
    }

    ghost function View(): seq<Entry>
      reads this
    {
      RowView(key, info)
    }

    // No time or reason is left behind the last key.
    ghost predicate Tidy()
      reads this
    {
      NoneBehind(size, info)
    }

    constructor (keys: seq<string>)
      requires Readable(keys) && forall i :: 0 <= i < |keys| ==> '\n' !in keys[i]
      ensures Valid() && Tidy() && View() == Added(keys)
    {
      key := Join(keys, '\n');
      size := |keys|;
      info := NO_INFO;
      ReadBack(keys, '\n');
    }

    // Channel.Update: a row whose key field is empty keeps the stored key, the size is counted again, and
    // statuses beyond it are dropped.
    method Update(newKey: string, newInfo: Info)
      modifies this
      ensures key == if |newKey| > 0 then newKey else old(key)
      ensures size == |ReadList(key, '\n')|
      ensures info == newInfo.(status := Below(newInfo.status, size))
    {
      if |newKey| > 0 {
        key := newKey;
      }
      var keys := ReadList(key, '\n');
      size := |keys|;
      var kept := Prune(newInfo.status, size);
      info := newInfo.(status := kept);
    }

    // An update that leaves the key alone.
    method UpdateInfo(newInfo: Info)
      requires StatusOk(size, newInfo) && Valid()
      modifies this
      ensures Valid() && key == old(key) && View() == RowView(key, newInfo)
      ensures NoneBehind(old(size), newInfo) ==> Tidy()
    {
      Update(key, newInfo);
      SameBelow(newInfo.status, size);
    }

    method DisableKey(keyIndex: Option<int>) returns (reply: Reply)
      requires Valid()
      modifies this
      ensures Valid() && key == old(key) && (old(Tidy()) ==> Tidy())
      ensures View() == Edit(old(View()), DisableOne(keyIndex)) && reply == Answer(old(View()), DisableOne(keyIndex))
    {
      if keyIndex.None? {
        return NoIndex;
      }
      var i := keyIndex.value;
      if i < 0 || i >= size {
        return OutOfRange;
      }
      DisabledEntry(ReadList(key, '\n'), info, i);
      UpdateInfo(info.(status := info.status[i := MANUALLY_DISABLED]));
      return Done(1);
    }

    method EnableKey(keyIndex: Option<int>) returns (reply: Reply)
      requires Valid()
      modifies this
      ensures Valid() && key == old(key) && (old(Tidy()) ==> Tidy())
      ensures View() == Edit(old(View()), EnableOne(keyIndex)) && reply == Answer(old(View()), EnableOne(keyIndex))
    {
      if keyIndex.None? {
        return NoIndex;
      }
      var i := keyIndex.value;
      if i < 0 || i >= size {
        return OutOfRange;
      }
      EnabledEntry(ReadList(key, '\n'), info, i);
      UpdateInfo(Info(info.status - {i}, info.time - {i}, info.reason - {i}));
      return Done(1);
    }

    // Reports how many keys were not enabled.
    method EnableAllKeys() returns (reply: Reply)
      requires Valid()
      modifies this
      ensures Valid() && key == old(key) && Tidy()
      ensures View() == Edit(old(View()), EnableEvery) && reply == Answer(old(View()), EnableEvery)
    {
      var enabledCount := |info.status|;
      DisabledCount(ReadList(key, '\n'), info);
      BareEntries(ReadList(key, '\n'), View());
      UpdateInfo(NO_INFO);
      return Done(enabledCount);
    }

    // Reports how many keys it disabled.
    method DisableAllKeys() returns (reply: Reply)
      requires Valid()
      modifies this
      ensures Valid() && key == old(key) && (old(Tidy()) ==> Tidy())
      ensures View() == Edit(old(View()), DisableEvery) && reply == Answer(old(View()), DisableEvery)
    {
      var newStatus, disabledCount := DisableEnabled(size, info.status);
      DisabledEntries(ReadList(key, '\n'), info, newStatus);
      if disabledCount == 0 {
        NoneToDisable(View());
        return NothingToDo;
      }
      UpdateInfo(info.(status := newStatus));
      return Done(disabledCount);
    }

    // The rest is stored as one string again: an empty key at either end of it is lost, and what was stored about
    // the keys stays where it was.
    method DeleteKey(keyIndex: Option<int>) returns (reply: Reply)
      requires Valid()
      modifies this
      ensures Valid() && Managed(old(View()), DeleteOne(keyIndex), reply, View())
      ensures old(Tidy()) && Storable(old(View()), Edit(old(View()), DeleteOne(keyIndex))) ==> Tidy()
    {
      if keyIndex.None? || keyIndex.value < 0 || keyIndex.value >= size {
        reply := if keyIndex.None? then NoIndex else OutOfRange;
        Refused(View(), DeleteOne(keyIndex), reply);
        return;
      }
      RestList(View(), keyIndex);
      var r := RebuildWithout(ReadList(key, '\n'), info, keyIndex.value);
      if |r.List()| == 0 {
        Refused(View(), DeleteOne(keyIndex), LastKey);
        return LastKey;
      }
      Replace(r);
      DeletedAs(old(View()), DeleteOne(keyIndex), Done(1), r.List(), View());
      return Done(1);
    }

    // With every key disabled automatically the new key string is empty, so the row keeps its keys and loses
    // only their statuses.
    method DeleteDisabledKeys() returns (reply: Reply)
      requires Valid()
      modifies this
      ensures Valid() && Managed(old(View()), DeleteDisabled, reply, View())
      ensures old(Tidy()) && Storable(old(View()), Edit(old(View()), DeleteDisabled)) ==> Tidy()
    {
      var deletedCount, r := RebuildSurvivors(ReadList(key, '\n'), info);
      if deletedCount == 0 {
        Refused(View(), DeleteDisabled, NothingToDo);
        return NothingToDo;
      }
      DeletedList(View());
      Replace(r);
      if |r.List()| == 0 {
        EmptiedAs(old(View()), Done(deletedCount), View());
      } else {
        DeletedAs(old(View()), DeleteDisabled, Done(deletedCount), r.List(), View());
      }
      return Done(deletedCount);
    }

    // Storing a rebuilt list of fewer keys.
    method Replace(r: Rebuilt)
      requires r.Ok() && |r.List()| < |View()| && forall k :: k in r.keys ==> '\n' !in k
      modifies this
      ensures Valid() && Stored(old(View()), r.List(), View())
      ensures info.time == r.info.time && info.reason == r.info.reason
      ensures Reread(Keys(old(View())), Keys(r.List())) == Keys(r.List()) || |r.List()| == 0 ==> Tidy()
    {
      StoredAgain(r.keys);
      EntryKeys(ReadList(key, '\n'), info);
      EntryKeys(r.keys, r.info);
      Update(Join(r.keys, '\n'), r.info);
      RelabelledEntries(ReadList(key, '\n'), r.keys, info, r.info);
    }

    // The switch over the actions that change the row.
    method Manage(action: Action) returns (reply: Reply)
      requires Valid()
      modifies this
      ensures Valid() && Managed(old(View()), action, reply, View())
      ensures old(Tidy()) && Storable(old(View()), Edit(old(View()), action)) ==> Tidy()
    {
      match action {
        case DisableOne(k) => reply := DisableKey(k);
        case EnableOne(k) => reply := EnableKey(k);
        case EnableEvery => reply := EnableAllKeys();
        case DisableEvery => reply := DisableAllKeys();
        case DeleteOne(k) => reply := DeleteKey(k); return;
        case DeleteDisabled => reply := DeleteDisabledKeys(); return;
      }
      OnlyStatuses(old(View()), action);
      ManagedIs(old(View()), action, reply, View());
    }

    // Any run of such requests.
    method ManageAll(actions: seq<Action>) returns (replies: seq<Reply>)
      requires Valid()
      modifies this
      ensures Valid()
      ensures View() == AfterAll(old(View()), actions) && replies == Answers(old(View()), actions)
      ensures StorableRun(old(View()), actions) ==> View() == EditAll(old(View()), actions) && (old(Tidy()) ==> Tidy())
    {
      replies := [];
      for i := 0 to |actions|
        invariant Valid()
        invariant View() == AfterAll(old(View()), actions[..i]) && replies == Answers(old(View()), actions[..i])
        invariant StorableRun(old(View()), actions[..i]) && old(Tidy()) ==> Tidy()
      {
        NextAfter(old(View()), actions, i);
        var reply := Manage(actions[i]);
        replies := replies + [reply];
      }
      assert actions[..|actions|] == actions;
      if StorableRun(old(View()), actions) {
        StorableRunEdits(old(View()), actions);
      }
    }

    // handlerMultiKeyUpdate, as far as it touches the maps: the relay reports on the key it was using.
    method AutoUpdate(usingKey: string, newStatus: int, why: string, now: int)
      requires Valid() && (newStatus == ENABLED || IsDisabled(newStatus))
      modifies this
      ensures Valid() && key == old(key) && (old(Tidy()) ==> Tidy())
      ensures View() == AutoEdit(old(View()), usingKey, newStatus, why, now)
    {
      var i := FindKey(ReadList(key, '\n'), usingKey);
      if i == size {
        AutoIgnored(ReadList(key, '\n'), info, usingKey, newStatus, why, now);
        return;
      }
      AutoReported(ReadList(key, '\n'), info, usingKey, newStatus, why, now, i);
      if newStatus == ENABLED {
        info := info.(status := info.status - {i});
      } else {
        info := Info(info.status[i := newStatus], info.time[i := now], info.reason[i := why]);
      }
    }

    method GetKeyStatus(page: int, pageSize: int, filter: Option<int>) returns (r: Listing)
      requires Valid()
      ensures r.enabled == CountStatus(View(), ENABLED) && r.manual == CountStatus(View(), MANUALLY_DISABLED)
      ensures r.auto == CountStatus(View(), AUTO_DISABLED) && r.enabled + r.manual + r.auto == size
      ensures r.pageSize == if pageSize <= 0 then 50 else pageSize
      ensures var list := Filtered(Indexed(View()), filter);
        && r.total == |list| && r.totalPages == TotalPages(|list|, r.pageSize)
        && r.page == (if page <= 0 then 1 else if page > r.totalPages then r.totalPages else page)
        && r.keys == PageOf(list, r.page, r.pageSize)
    {
      var size' := if pageSize <= 0 then 50 else pageSize;
      var page' := if page <= 0 then 1 else page;
      var all, enabled, manual, auto := BuildStatus(ReadList(key, '\n'), info);
      var list := ApplyFilter(all, filter);
      var totalPages := TotalPages(|list|, size');
      if page' > totalPages {
        page' := totalPages;
      }
      r := Listing(PageOf(list, page', size'), |list|, page', size', totalPages, enabled, manual, auto);
    }

    // UpdateChannel in append mode. Only a row of nothing but newlines, which reads as one empty key, loses a key.
    method AppendKeys(input: string)
      requires Valid()
      modifies this
      ensures Valid() && AppendedTo(old(key), input, old(info), old(View()), View())
    {
      AppendedIs(key, input, info);
      if |key| == 0 {
        Update(input, info);
      } else {
        var existing := ReadList(key, '\n');
        AppendedReads(key, input);
        var added := CollectNew(existing, Split(input, '\n'));
        Update(Join(existing + added, '\n'), info);
      }
      assert ReadList(key, '\n') == Appended(old(key), input);
      PrunedEntries(Appended(old(key), input), old(info));
    }
  }

  // Steps of the methods

  lemma SameBelow(status: map<nat, int>, n: int)
    requires forall i :: i in status ==> i < n
    ensures Below(status, n) == status
  {
  }

  lemma ManagedIs(es: seq<Entry>, action: Action, reply: Reply, view: seq<Entry>)
    requires reply == Answer(es, action) && view == After(es, action)
    ensures Managed(es, action, reply, view)
  {
    EditsExactlyWhen(es, action);
    ShowsExactlyWhen(es, action);
  }

  lemma Refused(es: seq<Entry>, action: Action, reply: Reply)
    requires Edit(es, action) == es && reply == Answer(es, action)
    ensures Managed(es, action, reply, es)
  {
    ManagedIs(es, action, reply, es);
  }

  lemma EntryKeys(keys: seq<string>, info: Info)
    ensures Keys(Entries(keys, info)) == keys
  {
  }

  // A shorter list was stored.
  lemma DeletedAs(es: seq<Entry>, action: Action, reply: Reply, rest: seq<Entry>, view: seq<Entry>)
    requires Edit(es, action) == rest && 0 < |rest| < |es| && reply == Answer(es, action)
    requires Stored(es, rest, view)
    ensures Managed(es, action, reply, view)
    ensures Storable(es, rest) ==> Reread(Keys(es), Keys(rest)) == Keys(rest)
  {
    DeletedIs(es, action, rest, view);
    ManagedIs(es, action, reply, view);
    StorableKeys(es, rest);
  }

  lemma DeletedIs(es: seq<Entry>, action: Action, rest: seq<Entry>, view: seq<Entry>)
    requires Edit(es, action) == rest && |rest| < |es| && Stored(es, rest, view)
    ensures view == After(es, action)
  {
    FewerReloaded(es, rest);
  }

  lemma StorableKeys(es: seq<Entry>, rest: seq<Entry>)
    requires 0 < |rest| < |es|
    ensures Storable(es, rest) ==> Reread(Keys(es), Keys(rest)) == Keys(rest)
  {
    StripsExactlyWhen(Keys(rest));
  }

  // Nothing was left to store.
  lemma EmptiedAs(es: seq<Entry>, reply: Reply, view: seq<Entry>)
    requires |Survivors(es)| == 0 && CountStatus(es, AUTO_DISABLED) > 0 && reply == Answer(es, DeleteDisabled)
    requires Stored(es, Survivors(es), view)
    ensures Managed(es, DeleteDisabled, reply, view)
  {
    DeletedList(es);
    BareRelabel(es, Survivors(es));
    ManagedIs(es, DeleteDisabled, reply, view);
  }

  lemma BareRelabel(es: seq<Entry>, none: seq<Entry>)
    requires |none| == 0
    ensures Relabel(Keys(es), none) == EnableAll(es) && Keys(EnableAll(es)) == Keys(es)
  {
  }

  lemma RestList(es: seq<Entry>, k: Option<int>)
    requires InRange(es, k)
    ensures var rest := Without(es, k.value);
      && |rest| == |es| - 1
      && Edit(es, DeleteOne(k)) == (if |rest| == 0 then es else rest)
      && Answer(es, DeleteOne(k)) == (if |rest| == 0 then LastKey else Done(1))
  {
  }

  lemma DeletedList(es: seq<Entry>)
    requires CountStatus(es, AUTO_DISABLED) > 0
    ensures var rest := Survivors(es);
      && |rest| < |es|
      && Edit(es, DeleteDisabled) == (if |rest| == 0 then EnableAll(es) else rest)
      && Answer(es, DeleteDisabled) == Done(CountStatus(es, AUTO_DISABLED))
  {
    SurvivorCount(es);
  }

  lemma NextAfter(es: seq<Entry>, actions: seq<Action>, i: nat)
    requires i < |actions|
    ensures AfterAll(es, actions[..i + 1]) == After(AfterAll(es, actions[..i]), actions[i])
    ensures Answers(es, actions[..i + 1]) ==
      Answers(es, actions[..i]) + [Answer(AfterAll(es, actions[..i]), actions[i])]
    ensures StorableRun(es, actions[..i + 1]) ==>
      && StorableRun(es, actions[..i])
      && Storable(AfterAll(es, actions[..i]), Edit(AfterAll(es, actions[..i]), actions[i]))
  {
    assert actions[..i + 1][..i] == actions[..i];
  }

  // What joined keys are read back as.
  lemma StoredAgain(keys: seq<string>)
    requires forall k :: k in keys ==> '\n' !in k
    ensures |Join(keys, '\n')| == 0 <==> |keys| == 0 || (|keys| == 1 && |keys[0]| == 0)
    ensures |Join(keys, '\n')| > 0 ==> ReadList(Join(keys, '\n'), '\n') == Strip(keys)
  {
    if |keys| > 0 {
      assert forall i :: 0 <= i < |keys| ==> keys[i] in keys;
      ReadsBackStripped(keys, '\n');
    }
  }

  // Statuses beyond the size are dropped, which no key below it notices.
  lemma PrunedEntries(keys: seq<string>, info: Info)
    ensures Entries(keys, info.(status := Below(info.status, |keys|))) == Entries(keys, info)
    ensures (forall i :: i in info.status ==> IsDisabled(info.status[i])) ==>
      StatusOk(|keys|, info.(status := Below(info.status, |keys|)))
  {
    var kept := info.(status := Below(info.status, |keys|));
    forall i | 0 <= i < |keys|
      ensures EntryAt(keys[i], i, kept) == EntryAt(keys[i], i, info)
    {
      assert i in kept.status <==> i in info.status;
    }
  }

  // A new list of keys is put over the old entries where nothing is stored behind them.
  lemma RelabelledEntries(keys': seq<string>, keys: seq<string>, kept: Info, info: Info)
    requires StatusOk(|keys|, info) && NoneBehind(|keys|, info)
    requires kept == info.(status := Below(info.status, |keys'|))
    ensures StatusOk(|keys'|, kept) && Entries(keys', kept) == Relabel(keys', Entries(keys, info))
    ensures keys' == keys || |keys| == 0 ==> NoneBehind(|keys'|, kept)
  {
    PrunedEntries(keys', info);
    OverEntries(keys', keys, info);
  }

  lemma DisabledEntry(keys: seq<string>, info: Info, i: int)
    requires StatusOk(|keys|, info) && 0 <= i < |keys|
    ensures var es, info' := Entries(keys, info), info.(status := info.status[i := MANUALLY_DISABLED]);
      && Entries(keys, info') == es[i := Disable(es[i])] && StatusOk(|keys|, info')
      && (NoneBehind(|keys|, info) ==> NoneBehind(|keys|, info'))
  {
  }

  lemma EnabledEntry(keys: seq<string>, info: Info, i: int)
    requires StatusOk(|keys|, info) && 0 <= i < |keys|
    ensures var es, info' := Entries(keys, info), Info(info.status - {i}, info.time - {i}, info.reason - {i});
      && Entries(keys, info') == es[i := Enable(es[i])] && StatusOk(|keys|, info')
      && (NoneBehind(|keys|, info) ==> NoneBehind(|keys|, info'))
  {
  }

  lemma BareEntries(keys: seq<string>, es: seq<Entry>)
    requires keys == Keys(es)
    ensures Entries(keys, NO_INFO) == EnableAll(es)
  {
  }

  // The loops that rebuild the row

  method Prune(status: map<nat, int>, n: int) returns (kept: map<nat, int>)
    ensures kept == Below(status, n)
  {
    kept := status;
    var pending := status.Keys;
    while pending != {}
      invariant pending <= kept.Keys <= status.Keys
      invariant forall i :: i in kept ==> kept[i] == status[i]
      invariant forall i :: i in status && i !in pending ==> (i in kept <==> i < n)
      decreases pending
    {
      var i :| i in pending;
      if i >= n {
        kept := kept - {i};
      }
      pending := pending - {i};
    }
  }

  // How many of the first n keys are enabled.
  function EnabledBelow(status: map<nat, int>, n: nat): nat {
    if n == 0 then 0 else EnabledBelow(status, n - 1) + (if StatusAt(status, n - 1) == ENABLED then 1 else 0)
  }

  ghost predicate DisabledBelow(status: map<nat, int>, newStatus: map<nat, int>, n: int) {
    && (forall j :: j in newStatus <==> j in status || 0 <= j < n)
    && forall j :: j in newStatus ==> newStatus[j] == if j in status then status[j] else MANUALLY_DISABLED
  }

  method DisableEnabled(size: nat, status: map<nat, int>) returns (newStatus: map<nat, int>, disabledCount: nat)
    requires forall i :: i in status ==> status[i] != ENABLED
    ensures DisabledBelow(status, newStatus, size)
    ensures disabledCount == EnabledBelow(status, size)
  {
    newStatus, disabledCount := status, 0;
    for i := 0 to size
      invariant DisabledBelow(status, newStatus, i)
      invariant disabledCount == EnabledBelow(status, i)
    {
      if StatusAt(newStatus, i) == ENABLED {
        newStatus := newStatus[i := MANUALLY_DISABLED];
        disabledCount := disabledCount + 1;
      }
    }
  }

  lemma {:induction false} EnabledEntries(keys: seq<string>, info: Info, n: nat)
    requires n <= |keys|
    ensures CountStatus(Entries(keys, info)[..n], ENABLED) == EnabledBelow(info.status, n)
  {
    if n > 0 {
      var es := Entries(keys, info);
      EnabledEntries(keys, info, n - 1);
      assert es[..n][..n - 1] == es[..n - 1];
    }
  }

  lemma DisabledEntries(keys: seq<string>, info: Info, newStatus: map<nat, int>)
    requires StatusOk(|keys|, info) && DisabledBelow(info.status, newStatus, |keys|)
    ensures Entries(keys, info.(status := newStatus)) == DisableAll(Entries(keys, info))
    ensures StatusOk(|keys|, info.(status := newStatus))
    ensures EnabledBelow(info.status, |keys|) == CountStatus(Entries(keys, info), ENABLED)
  {
    EnabledEntries(keys, info, |keys|);
    var es := Entries(keys, info);
    assert es[..|keys|] == es;
  }

  // A rebuilt list with its maps.
  datatype Rebuilt = Rebuilt(keys: seq<string>, info: Info) {
    function List(): seq<Entry> {
      Entries(keys, info)
    }

    predicate Ok() {
      StatusOk(|keys|, info) && NoneBehind(|keys|, info)
    }
  }

  // One turn of either loop for a key that stays: the key goes to the end of the list and what there is
  // about it goes to the new index.
  method Keep(r: Rebuilt, key: string, s: int, t: Option<int>, why: Option<string>) returns (r': Rebuilt)
    requires r.Ok() && (s == ENABLED || IsDisabled(s))
    ensures r'.Ok() && r'.List() == r.List() + [Entry(key, s, t, why)]
    ensures r'.keys == r.keys + [key]
  {
    var n := |r.keys|;
    var newStatus, newTime, newReason := r.info.status, r.info.time, r.info.reason;
    if s != ENABLED {
      newStatus := newStatus[n := s];
    }
    if t.Some? {
      newTime := newTime[n := t.value];
    }
    if why.Some? {
      newReason := newReason[n := why.value];
    }
    r' := Rebuilt(r.keys + [key], Info(newStatus, newTime, newReason));
  }

  lemma WithoutNext(es: seq<Entry>, i: nat, k: int)
    requires i < |es|
    ensures Without(es[..i + 1], k) == Without(es[..i], k) + (if i == k then [] else [es[i]])
  {
    assert es[..i + 1] == es[..i] + [es[i]];
    if 0 <= k < i {
      assert es[..i + 1][k + 1..] == es[..i][k + 1..] + [es[i]];
    }
  }

  method RebuildWithout(keys: seq<string>, info: Info, keyIndex: int)
    returns (r: Rebuilt)
    requires StatusOk(|keys|, info)
    ensures r.Ok() && r.List() == Without(Entries(keys, info), keyIndex)
    ensures forall k :: k in r.keys ==> k in keys
  {
    r := Rebuilt([], NO_INFO);
    ghost var es := Entries(keys, info);
    for i := 0 to |keys|
      invariant r.Ok() && r.List() == Without(es[..i], keyIndex)
      invariant forall k :: k in r.keys ==> k in keys
    {
      WithoutNext(es, i, keyIndex);
      if i != keyIndex {
        r := Keep(r, keys[i], StatusAt(info.status, i), Lookup(info.time, i), Lookup(info.reason, i));
      }
    }
    assert es[..|keys|] == es;
  }

  method RebuildSurvivors(keys: seq<string>, info: Info)
    returns (deletedCount: nat, r: Rebuilt)
    requires StatusOk(|keys|, info)
    ensures deletedCount == CountStatus(Entries(keys, info), AUTO_DISABLED)
    ensures r.Ok() && r.List() == Survivors(Entries(keys, info))
    ensures forall k :: k in r.keys ==> k in keys
  {
    deletedCount, r := 0, Rebuilt([], NO_INFO);
    ghost var es := Entries(keys, info);
    for i := 0 to |keys|
      invariant deletedCount == CountStatus(es[..i], AUTO_DISABLED)
      invariant r.Ok() && r.List() == Survivors(es[..i])
      invariant forall k :: k in r.keys ==> k in keys
    {
      assert es[..i + 1][..i] == es[..i];
      var s := StatusAt(info.status, i);
      if s == AUTO_DISABLED {
        deletedCount := deletedCount + 1;
      } else if s != ENABLED {
        r := Keep(r, keys[i], s, Lookup(info.time, i), Lookup(info.reason, i));
      } else {
        r := Keep(r, keys[i], s, None, None);
      }
    }
    assert es[..|keys|] == es;
  }

  // Counting

  lemma {:induction false} EnabledIsMissing(status: map<nat, int>, n: nat)
    requires forall i :: i in status ==> status[i] != ENABLED
    ensures EnabledBelow(status, n) == Missing(status.Keys, n)
  {
    if n > 0 {
      EnabledIsMissing(status, n - 1);
    }
  }

  // A status entry is the same as a key that is not enabled.
  lemma DisabledCount(keys: seq<string>, info: Info)
    requires StatusOk(|keys|, info)
    ensures |info.status| + CountStatus(Entries(keys, info), ENABLED) == |keys|
  {
    EnabledIsMissing(info.status, |keys|);
    PresentAndMissing(info.status.Keys, |keys|);
    EnabledEntries(keys, info, |keys|);
    var es := Entries(keys, info);
    assert es[..|keys|] == es;
  }

  // Reports from the relay

  ghost predicate FirstAt(keys: seq<string>, usingKey: string, i: nat) {
    i < |keys| && keys[i] == usingKey && forall j :: 0 <= j < i ==> keys[j] != usingKey
  }

  method FindKey(keys: seq<string>, usingKey: string) returns (i: nat)
    ensures i <= |keys| && (i < |keys| ==> FirstAt(keys, usingKey, i))
    ensures i == |keys| ==> usingKey !in keys
  {
    i := 0;
    while i < |keys| && keys[i] != usingKey
      invariant 0 <= i <= |keys| && forall j :: 0 <= j < i ==> keys[j] != usingKey
    {
      i := i + 1;
    }
  }

  lemma AutoIgnored(keys: seq<string>, info: Info, usingKey: string, newStatus: int, why: string, now: int)
    requires usingKey !in keys
    ensures AutoEdit(Entries(keys, info), usingKey, newStatus, why, now) == Entries(keys, info)
  {
    FirstIs(Entries(keys, info), usingKey, |keys|);
  }

  // The maps after a report on the key at index i, the first that is the one in use.

  function Reported(info: Info, newStatus: int, why: string, now: int, i: nat): Info {
    if newStatus == ENABLED then info.(status := info.status - {i})
    else Info(info.status[i := newStatus], info.time[i := now], info.reason[i := why])
  }

  lemma AutoReported(keys: seq<string>, info: Info, usingKey: string, newStatus: int, why: string, now: int, i: nat)
    requires StatusOk(|keys|, info) && FirstAt(keys, usingKey, i) && (newStatus == ENABLED || IsDisabled(newStatus))
    ensures StatusOk(|keys|, Reported(info, newStatus, why, now, i))
    ensures NoneBehind(|keys|, info) ==> NoneBehind(|keys|, Reported(info, newStatus, why, now, i))
    ensures Entries(keys, Reported(info, newStatus, why, now, i)) ==
      AutoEdit(Entries(keys, info), usingKey, newStatus, why, now)
  {
    FirstIs(Entries(keys, info), usingKey, i);
    if newStatus == ENABLED {
      EnabledReport(keys, info, i);
    } else {
      DisabledReport(keys, info, newStatus, why, now, i);
    }
  }

  lemma EnabledReport(keys: seq<string>, info: Info, i: nat)
    requires StatusOk(|keys|, info) && i < |keys|
    ensures var es, info' := Entries(keys, info), info.(status := info.status - {i});
      StatusOk(|keys|, info') && Entries(keys, info') == es[i := es[i].(status := ENABLED)]
  {
  }

  lemma DisabledReport(keys: seq<string>, info: Info, newStatus: int, why: string, now: int, i: nat)
    requires StatusOk(|keys|, info) && i < |keys| && IsDisabled(newStatus)
    ensures var es := Entries(keys, info);
      var info' := Info(info.status[i := newStatus], info.time[i := now], info.reason[i := why]);
      StatusOk(|keys|, info') && Entries(keys, info') == es[i := Entry(keys[i], newStatus, Some(now), Some(why))]
  {
  }

  // Listing

  lemma NextStatus(es: seq<Entry>, i: nat)
    requires i < |es|
    ensures Indexed(es[..i + 1]) == Indexed(es[..i]) + [KeyStatus(i, Show(es[i]))]
    ensures forall s :: CountStatus(es[..i + 1], s) == CountStatus(es[..i], s) + if es[i].status == s then 1 else 0
  {
    assert es[..i + 1][..i] == es[..i];
  }

  method BuildStatus(keys: seq<string>, info: Info)
    returns (list: seq<KeyStatus>, enabled: nat, manual: nat, auto: nat)
    requires StatusOk(|keys|, info)
    ensures var es := Entries(keys, info);
      && list == Indexed(es) && enabled == CountStatus(es, ENABLED)
      && manual == CountStatus(es, MANUALLY_DISABLED) && auto == CountStatus(es, AUTO_DISABLED)
    ensures enabled + manual + auto == |keys|
  {
    list, enabled, manual, auto := [], 0, 0, 0;
    ghost var es := Entries(keys, info);
    for i := 0 to |keys|
      invariant list == Indexed(es[..i])
      invariant enabled == CountStatus(es[..i], ENABLED) && manual == CountStatus(es[..i], MANUALLY_DISABLED)
      invariant auto == CountStatus(es[..i], AUTO_DISABLED) && enabled + manual + auto == i
    {
      NextStatus(es, i);
      var s := StatusAt(info.status, i);
      var disabledTime, why := 0, "";
      if s == ENABLED {
        enabled := enabled + 1;
      } else if s == MANUALLY_DISABLED {
        manual := manual + 1;
      } else if s == AUTO_DISABLED {
        auto := auto + 1;
      }
      if s != ENABLED {
        disabledTime := if i in info.time then info.time[i] else 0;
        why := if i in info.reason then info.reason[i] else "";
      }
      list := list + [KeyStatus(i, Record(keys[i], s, disabledTime, why))];
    }
    assert es[..|keys|] == es;
  }

  method ApplyFilter(list: seq<KeyStatus>, filter: Option<int>) returns (r: seq<KeyStatus>)
    ensures r == Filtered(list, filter)
  {
    if filter.None? {
      return list;
    }
    r := [];
    for i := 0 to |list|
      invariant r == Filtered(list[..i], filter)
    {
      assert list[..i + 1][..i] == list[..i];
      if list[i].record.status == filter.value {
        r := r + [list[i]];
      }
    }
    assert list[..|list|] == list;
  }

  // Appending keys

  method CleanLines(lines: seq<string>) returns (newKeys: seq<string>)
    ensures newKeys == Cleaned(lines)
  {
    newKeys := [];
    for i := 0 to |lines|
      invariant newKeys == Cleaned(lines[..i])
    {
      CleanedNext(lines, i);
      var key := TrimSpace(lines[i]);
      if |key| > 0 {
        newKeys := newKeys + [key];
      }
    }
    assert lines[..|lines|] == lines;
  }

  method SeenKeys(existing: seq<string>) returns (seen: set<string>)
    ensures seen == Elements(Cleaned(existing))
  {
    seen := {};
    for i := 0 to |existing|
      invariant HasSeen(seen, {}, Cleaned(existing[..i]))
    {
      CleanedNext(existing, i);
      var normalized := TrimSpace(existing[i]);
      if |normalized| > 0 {
        seen := seen + {normalized};
      }
    }
    assert existing[..|existing|] == existing;
  }

  method Unseen<T(==,!new)>(names: seq<T>, known: set<T>) returns (added: seq<T>)
    ensures added == Minus(Uniq(names), known)
  {
    var seen := known;
    added := [];
    for i := 0 to |names|
      invariant added == Minus(Uniq(names[..i]), known)
      invariant HasSeen(seen, known, names[..i])
    {
      UnseenAt(names, known, seen, i);
      if names[i] !in seen {
        seen := seen + {names[i]};
        added := added + [names[i]];
      }
    }
    assert names[..|names|] == names;
  }

  // The new lines are trimmed twice, once when they are read and once when they are compared.
  method CollectNew(existing: seq<string>, lines: seq<string>) returns (added: seq<string>)
    ensures added == NewKeys(existing, lines)
  {
    var newKeys := CleanLines(lines);
    var seen := SeenKeys(existing);
    var normalized := CleanLines(newKeys);
    CleanedOfClean(newKeys);
    added := Unseen(normalized, seen);
  }

  lemma NewKeysAreLines(existing: seq<string>, lines: seq<string>, k: string)
    requires forall i :: 0 <= i < |lines| ==> '\n' !in lines[i]
    requires k in NewKeys(existing, lines)
    ensures '\n' !in k && |k| > 0
  {
    CleanedLines(lines, k);
  }

  // Appending to a list with nothing to strip leaves nothing to strip.
  lemma AppendedStrip(existing: seq<string>, added: seq<string>)
    requires |existing| > 0 && Readable(existing) && forall k :: k in added ==> |k| > 0
    ensures Strip(existing + added) == existing + added
  {
    assert |added| > 0 ==> added[|added| - 1] in added;
    StripsExactlyWhen(existing + added);
  }

  // The keys to append to a row, and its keys afterwards.

  function Additions(key: string, input: string): seq<string> {
    if |key| == 0 then ReadList(input, '\n') else NewKeys(ReadList(key, '\n'), Split(input, '\n'))
  }

  function Appended(key: string, input: string): seq<string> {
    if |key| == 0 then Additions(key, input) else Strip(ReadList(key, '\n') + Additions(key, input))
  }

  lemma AppendedReads(key: string, input: string)
    requires |key| > 0
    ensures var existing := ReadList(key, '\n');
      var joined := Join(existing + Additions(key, input), '\n');
      && Appended(key, input) == (if |joined| > 0 then ReadList(joined, '\n') else existing)
      && (Readable(existing) ==> Appended(key, input) == existing + Additions(key, input))
  {
    var existing, added := ReadList(key, '\n'), Additions(key, input);
    forall k | k in added ensures '\n' !in k && |k| > 0 {
      NewKeysAreLines(existing, Split(input, '\n'), k);
    }
    AppendedAgain(existing, added);
  }

  lemma AppendedAgain(existing: seq<string>, added: seq<string>)
    requires |existing| > 0 && forall i :: 0 <= i < |existing| ==> '\n' !in existing[i]
    requires forall k :: k in added ==> '\n' !in k && |k| > 0
    ensures var keys := existing + added;
      && Strip(keys) == (if |Join(keys, '\n')| > 0 then ReadList(Join(keys, '\n'), '\n') else existing)
      && (Readable(existing) ==> Strip(keys) == keys)
  {
    var keys := existing + added;
    StoredAgain(keys);
    if |Join(keys, '\n')| == 0 {
      assert keys == existing;
    }
    if Readable(existing) {
      AppendedStrip(existing, added);
    }
  }

  lemma {:induction false} CleanedLines(lines: seq<string>, name: string)
    requires forall i :: 0 <= i < |lines| ==> '\n' !in lines[i]
    requires name in Cleaned(lines)
    ensures '\n' !in name
  {
    if |lines| > 0 {
      var last := lines[|lines| - 1];
      if name in Cleaned(lines[..|lines| - 1]) {
        CleanedLines(lines[..|lines| - 1], name);
      } else {
        assert name == TrimSpace(last);
        TrimIsTight(last, IsSpace);
      }
    }
  }

  lemma AppendedIs(key: string, input: string, info: Info)
    requires StatusOk(|ReadList(key, '\n')|, info)
    ensures AppendedTo(key, input, info, RowView(key, info), Entries(Appended(key, input), info))
  {
    var existing := ReadList(key, '\n');
    if |key| > 0 {
      AppendedReads(key, input);
    } else {
      assert existing + Additions(key, input) == Additions(key, input);
    }
    IsPutOver(Appended(key, input), existing, Additions(key, input), info);
  }

  lemma IsPutOver(keys: seq<string>, existing: seq<string>, added: seq<string>, info: Info)
    requires StatusOk(|existing|, info) && (Readable(existing) ==> keys == existing + added)
    ensures PutOver(keys, added, info, Entries(existing, info), Entries(keys, info))
  {
    EntryKeys(existing, info);
    if Readable(existing) {
      NewEntries(existing, added, info);
    }
    if NoneBehind(|existing|, info) {
      OverEntries(keys, existing, info);
    }
  }

  lemma OverEntries(keys': seq<string>, keys: seq<string>, info: Info)
    requires StatusOk(|keys|, info) && NoneBehind(|keys|, info)
    ensures Entries(keys', info) == Relabel(keys', Entries(keys, info))
  {
  }

  lemma NewEntries(existing: seq<string>, added: seq<string>, info: Info)
    requires StatusOk(|existing|, info)
    ensures Entries(existing + added, info) == Entries(existing, info) + Added(added) <==>
            NoneAt(info, |existing|, |existing| + |added|)
  {
    var n, left, right := |existing|, Entries(existing + added, info), Entries(existing, info) + Added(added);
    forall i | 0 <= i < n + |added|
      ensures left[i] == right[i] <==> i < n || (i !in info.time && i !in info.reason)
    {
      if i >= n {
        assert right[i] == Entry(added[i - n], ENABLED, None, None) && left[i] == EntryAt(added[i - n], i, info);
      }
    }
  }
}
