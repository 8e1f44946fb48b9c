/**
 Upstream model sync (controller/channel_upstream_update.go): a channel stores its model list as one
 comma-separated string together with the pending additions and removals of the last detection and a list
 of ignored names and patterns. Detection compares the list with what the upstream offers; applying moves
 selected pending names into or out of the list. The model keeps the stored string.
 */
module UpstreamSync {
  import opened Basics
  import opened Text
  import opened Iteration

  // Name lists

  function Merge(base: seq<string>, appended: seq<string>): seq<string> {
    Normalize(base) + Minus(Normalize(appended), Elements(Normalize(base)))
  }

  // mergeModelNames, which grows a slice and the set of names already in it.
  method MergeModelNames(base: seq<string>, appended: seq<string>) returns (merged: seq<string>)
    ensures merged == Merge(base, appended)
  {
    NormalizeIsNormal(appended);
    merged := AppendUnseen(Normalize(base), Normalize(appended));
  }

  method AppendUnseen(start: seq<string>, extra: seq<string>) returns (merged: seq<string>)
    requires NoDup(extra)
    ensures merged == start + Minus(extra, Elements(start))
  {
    merged := start;
    var seen := set name | name in merged;
    for i := 0 to |extra|
      invariant merged == start + Minus(extra[..i], Elements(start))
      invariant seen == Elements(merged)
    {
      var name := extra[i];
      assert extra[..i + 1][..i] == extra[..i];
      assert name !in extra[..i];
      if name !in seen {
        seen := seen + {name};
        merged := merged + [name];
      }
    }
    assert extra[..|extra|] == extra;
  }

  function Subtract(base: seq<string>, removed: seq<string>): seq<string> {
    Minus(Normalize(base), Elements(Normalize(removed)))
  }

  function Intersect(base: seq<string>, allowed: seq<string>): seq<string> {
    Meet(Normalize(base), Elements(Normalize(allowed)))
  }

  function ApplySelected(origin: seq<string>, add: seq<string>, remove: seq<string>): seq<string> {
    var normalizedAdd := Normalize(add);
    var normalizedRemove := Subtract(Normalize(remove), normalizedAdd);
    Subtract(Merge(origin, normalizedAdd), normalizedRemove)
  }

  lemma AppendKeepsNormal(a: seq<string>, b: seq<string>)
    requires Normal(a) && Normal(b)
    ensures Normal(a + Minus(b, Elements(a)))
  {
    var extra := Minus(b, Elements(a));
    MinusNoDup(b, Elements(a));
    forall i, j | 0 <= i < j < |a + extra|
      ensures (a + extra)[i] != (a + extra)[j]
    {
      if i < |a| <= j {
        assert a[i] in a && extra[j - |a|] in extra;
      }
    }
  }

  // What the operations do to normal lists.
  lemma OnNormalLists(a: seq<string>, b: seq<string>)
    requires Normal(a) && Normal(b)
    ensures Merge(a, b) == a + Minus(b, Elements(a)) && Normal(Merge(a, b))
    ensures Subtract(a, b) == Minus(a, Elements(b)) && Normal(Subtract(a, b))
    ensures Intersect(a, b) == Meet(a, Elements(b)) && Normal(Intersect(a, b))
  {
    assert Normalize(a) == a by { NormalizeIsNormal(a); }
    assert Normalize(b) == b by { NormalizeIsNormal(b); }
    AppendKeepsNormal(a, b);
    MinusNoDup(a, Elements(b));
    MeetNoDup(a, Elements(b));
  }

  // The shape of a merge followed by a removal.
  lemma MergedMinus(o: seq<string>, a: seq<string>, gone: set<string>)
    requires forall name :: name in a ==> name !in gone
    ensures var next := Minus(o + Minus(a, Elements(o)), gone);
      && next == Minus(o, gone) + Minus(a, Elements(o))
      && Elements(next) == (Elements(o) + Elements(a)) - gone
  {
    var extra := Minus(a, Elements(o));
    MinusAppend(o, extra, gone);
    MinusNothing(extra, gone);
  }

  lemma UnfoldApply(origin: seq<string>, add: seq<string>, remove: seq<string>)
    ensures var o, a, r := Normalize(origin), Normalize(add), Normalize(remove);
      && ApplySelected(origin, add, remove) == Minus(o + Minus(a, Elements(o)), Elements(Minus(r, Elements(a))))
      && Normal(ApplySelected(origin, add, remove))
  {
    var o, a, r := Normalize(origin), Normalize(add), Normalize(remove);
    assert Normal(o) by { NormalizeIsNormal(origin); }
    assert Normal(a) by { NormalizeIsNormal(add); }
    assert Normal(r) by { NormalizeIsNormal(remove); }
    assert Normalize(a) == a by { NormalizeIsNormal(a); }
    var merged, gone := Merge(origin, a), Subtract(r, a);
    assert merged == o + Minus(a, Elements(o));
    assert Normal(merged) by { AppendKeepsNormal(o, a); }
    assert gone == Minus(r, Elements(a)) && Normal(gone) by { OnNormalLists(r, a); }
    assert Subtract(merged, gone) == Minus(merged, Elements(gone)) && Normal(Subtract(merged, gone)) by {
      OnNormalLists(merged, gone);
    }
  }

  // applySelectedModelChanges: the survivors of the origin in their order, then the additions that are new,
  // without duplicates; a name stays out exactly when it is removed and not added.
  lemma ApplySelectedAlgebra(origin: seq<string>, add: seq<string>, remove: seq<string>)
    ensures var o, a, r := Normalize(origin), Normalize(add), Normalize(remove);
      var next := ApplySelected(origin, add, remove);
      && next == Minus(o, Elements(r) - Elements(a)) + Minus(a, Elements(o))
      && Normal(next)
      && Elements(next) == (Elements(o) + Elements(a)) - (Elements(r) - Elements(a))
  {
    UnfoldApply(origin, add, remove);
    var o, a, r := Normalize(origin), Normalize(add), Normalize(remove);
    assert Elements(Minus(r, Elements(a))) == Elements(r) - Elements(a);
    MergedMinus(o, a, Elements(r) - Elements(a));
  }

  // Detection

  // regexp.MatchString(pattern, name), false when the pattern does not compile.
  type Matcher = (string, string) -> bool

  const REGEX_PREFIX := "regex:"

  predicate Ignores(matches: Matcher, rule: string, name: string) {
    if HasPrefix(rule, REGEX_PREFIX) then matches(TrimSpace(rule[|REGEX_PREFIX|..]), name) else rule == name
  }

  predicate IsIgnored(matches: Matcher, rules: set<string>, name: string) {
    exists rule :: rule in rules && Ignores(matches, rule, name)
  }

  function IgnoredNames(matches: Matcher, rules: set<string>, names: seq<string>): set<string> {
    set name | name in names && IsIgnored(matches, rules, name)
  }

  // collectPendingUpstreamModelChangesFromModels: redirect targets count as covered, redirect sources are
  // never removed.
  function PendingAdd(matches: Matcher, local: seq<string>, upstream: seq<string>, ignored: seq<string>,
                      mapping: map<string, string>)
    : seq<string>
  {
    var names := Normalize(upstream);
    var hidden := IgnoredNames(matches, Elements(Normalize(ignored)), names);
    Normalize(Minus(names, Elements(Normalize(local)) + mapping.Values + hidden))
  }

  function PendingRemove(local: seq<string>, upstream: seq<string>, mapping: map<string, string>): seq<string> {
    Normalize(Minus(Normalize(local), mapping.Keys + Elements(Normalize(upstream))))
  }

  lemma PendingIsNormal(matches: Matcher, local: seq<string>, upstream: seq<string>, ignored: seq<string>,
                        mapping: map<string, string>)
    ensures var add := PendingAdd(matches, local, upstream, ignored, mapping);
      && Normal(add)
      && forall name :: name in add <==>
           && name in Normalize(upstream) && name !in Normalize(local) && name !in mapping.Values
           && !IsIgnored(matches, Elements(Normalize(ignored)), name)
    ensures var remove := PendingRemove(local, upstream, mapping);
      && Normal(remove)
      && forall name :: name in remove <==>
           name in Normalize(local) && name !in mapping.Keys && name !in Normalize(upstream)
  {
    var names := Normalize(upstream);
    assert Normal(names) by { NormalizeIsNormal(upstream); }
    var out := Elements(Normalize(local)) + mapping.Values + IgnoredNames(matches, Elements(Normalize(ignored)), names);
    MinusNoDup(names, out);
    NormalizeIsNormal(Minus(names, out));
    assert Normal(Normalize(local)) by { NormalizeIsNormal(local); }
    var kept := mapping.Keys + Elements(names);
    MinusNoDup(Normalize(local), kept);
    NormalizeIsNormal(Minus(Normalize(local), kept));
  }

  // An offered name that is not covered is left out exactly when it is itself an ignore entry that is no pattern, or
  // an entry is `regex:` and a pattern, spaces around it aside, that matches it.
  lemma PendingExactly(matches: Matcher, local: seq<string>, upstream: seq<string>, ignored: seq<string>,
                       mapping: map<string, string>, name: string)
    ensures name in PendingAdd(matches, local, upstream, ignored, mapping) <==>
      && name in Normalize(upstream) && name !in Normalize(local) && name !in mapping.Values
      && !(name in Normalize(ignored) && !(REGEX_PREFIX <= name))
      && !(exists body: string :: REGEX_PREFIX + body in Normalize(ignored) && matches(TrimSpace(body), name))
  {
    PendingIsNormal(matches, local, upstream, ignored, mapping);
    IgnoredExactly(matches, Normalize(ignored), name);
  }

  lemma IgnoredExactly(matches: Matcher, rules: seq<string>, name: string)
    ensures IsIgnored(matches, Elements(rules), name) <==>
      || (name in rules && !(REGEX_PREFIX <= name))
      || exists body: string :: REGEX_PREFIX + body in rules && matches(TrimSpace(body), name)
  {
    if rule :| rule in rules && Ignores(matches, rule, name) {
      IgnoredBy(matches, rule, name);
    }
    if body: string :| REGEX_PREFIX + body in rules && matches(TrimSpace(body), name) {
      PatternIgnores(matches, body, name);
      IgnoredIn(matches, rules, REGEX_PREFIX + body, name);
    }
    if name in rules && !(REGEX_PREFIX <= name) {
      IgnoredIn(matches, rules, name, name);
    }
  }

  lemma IgnoredIn(matches: Matcher, rules: seq<string>, rule: string, name: string)
    requires rule in rules && Ignores(matches, rule, name)
    ensures IsIgnored(matches, Elements(rules), name)
  {
    assert rule in Elements(rules);
  }

  lemma IgnoredBy(matches: Matcher, rule: string, name: string)
    requires Ignores(matches, rule, name)
    ensures if REGEX_PREFIX <= rule then
              var body := rule[|REGEX_PREFIX|..];
              rule == REGEX_PREFIX + body && matches(TrimSpace(body), name)
            else rule == name
  {
  }

  lemma PatternIgnores(matches: Matcher, body: string, name: string)
    ensures Ignores(matches, REGEX_PREFIX + body, name) <==> matches(TrimSpace(body), name)
  {
    var rule := REGEX_PREFIX + body;
    assert HasPrefix(rule, REGEX_PREFIX) && rule[|REGEX_PREFIX|..] == body;
  }

  // The channel and its stored state

  datatype Sync = Sync(models: string, ignored: seq<string>, detected: seq<string>, removed: seq<string>,
                       lastCheck: int)

  // channel.GetModels(), normalized.
  function Local(models: string): seq<string> {
    Normalize(ReadList(models, ','))
  }

  // The state a successful detection leaves, without automatic application.
  function Detected(c: Sync, mapping: map<string, string>, matches: Matcher, upstream: seq<string>, now: int): Sync {
    c.(detected := PendingAdd(matches, ReadList(c.models, ','), upstream, c.ignored, mapping),
       removed := PendingRemove(ReadList(c.models, ','), upstream, mapping),
       lastCheck := now)
  }

  // The state it leaves when pending additions are applied on the spot.
  function AutoSynced(c: Sync, mapping: map<string, string>, matches: Matcher, upstream: seq<string>, now: int): Sync {
    var d := Detected(c, mapping, matches, upstream, now);
    if |d.detected| == 0 then d
    else
      var merged := Merge(Local(c.models), d.detected);
      d.(models := if |merged| > |Local(c.models)| then Join(merged, ',') else c.models, detected := [])
  }

  lemma AutoSyncedParts(c: Sync, mapping: map<string, string>, matches: Matcher, upstream: seq<string>, now: int)
    ensures var add := PendingAdd(matches, ReadList(c.models, ','), upstream, c.ignored, mapping);
      var merged := Merge(Local(c.models), add);
      |add| > 0 ==>
        AutoSynced(c, mapping, matches, upstream, now) ==
        Sync(if |merged| > |Local(c.models)| then Join(merged, ',') else c.models, c.ignored, [],
             PendingRemove(ReadList(c.models, ','), upstream, mapping), now)
  {
  }

  datatype Selection = Selection(add: seq<string>, ignore: seq<string>, remove: seq<string>)

  // A request can only select names that are pending, and adding wins over removing.
  function Selected(c: Sync, request: Selection): Selection {
    var add := Intersect(request.add, Normalize(c.detected));
    Selection(add,
              Intersect(request.ignore, Normalize(c.detected)),
              Subtract(Intersect(request.remove, Normalize(c.removed)), add))
  }

  function NextModels(c: Sync, request: Selection): seq<string> {
    ApplySelected(Local(c.models), Selected(c, request).add, Selected(c, request).remove)
  }

  function NextIgnored(c: Sync, request: Selection): seq<string> {
    IgnoredWith(c.ignored, Selected(c, request))
  }

  function ModelsWith(models: string, s: Selection): string {
    var next := ApplySelected(Local(models), s.add, s.remove);
    if Local(models) == next then models else Join(next, ',')
  }

  function IgnoredWith(ignored: seq<string>, s: Selection): seq<string> {
    var merged := Merge(ignored, s.ignore);
    if |s.add| > 0 then Subtract(merged, s.add) else merged
  }

  function AppliedWith(c: Sync, s: Selection, now: int): Sync {
    Sync(ModelsWith(c.models, s),
         IgnoredWith(c.ignored, s),
         Subtract(Normalize(c.detected), s.add + s.ignore),
         Subtract(Normalize(c.removed), s.remove),
         now)
  }

  function Applied(c: Sync, request: Selection, now: int): Sync {
    AppliedWith(c, Selected(c, request), now)
  }

  class Channel {
    var models: string
    var ignored: seq<string>
    var detected: seq<string>
    var removed: seq<string>
    var lastCheck: int
    const mapping: map<string, string>
    const autoSync: bool

    constructor (models: string, mapping: map<string, string>, autoSync: bool)
      ensures View() == Sync(models, [], [], [], 0)
      ensures this.mapping == mapping && this.autoSync == autoSync
    {
      this.models, this.mapping, this.autoSync := models, mapping, autoSync;
      ignored, detected, removed, lastCheck := [], [], [], 0;
    }

    ghost function View(): Sync
      reads this
    {
      Sync(models, ignored, detected, removed, lastCheck)
    }

    // checkAndPersistChannelUpstreamModelUpdates; `upstream` is None when fetching the list fails.
    method CheckUpdates(matches: Matcher, upstream: Option<seq<string>>, now: int, minInterval: int, force: bool,
                        allowAutoApply: bool)
      returns (modelsChanged: bool, autoAdded: nat)
      modifies this
      ensures var c := old(View());
        View() ==
          if !force && c.lastCheck > 0 && now - c.lastCheck < minInterval then c
          else if upstream.None? then c.(lastCheck := now)
          else if allowAutoApply && autoSync then AutoSynced(c, mapping, matches, upstream.value, now)
          else Detected(c, mapping, matches, upstream.value, now)
      ensures lastCheck == now || (!force && 0 < old(lastCheck) && now - old(lastCheck) < minInterval)
      ensures !modelsChanged ==> models == old(models) && autoAdded == 0
      ensures modelsChanged <==>
        && (force || old(lastCheck) <= 0 || now - old(lastCheck) >= minInterval)
        && upstream.Some? && allowAutoApply && autoSync
        && |PendingAdd(matches, ReadList(old(models), ','), upstream.value, old(ignored), mapping)| > 0
      ensures modelsChanged ==>
        autoAdded == |PendingAdd(matches, ReadList(old(models), ','), upstream.value, old(ignored), mapping)|
    {
      modelsChanged, autoAdded := false, 0;
      if !force {
        if lastCheck > 0 && now - lastCheck < minInterval {
          return;
        }
      }
      if upstream.None? {
        lastCheck := now;
        return;
      }
      modelsChanged, autoAdded := Record(matches, upstream.value, now, allowAutoApply && autoSync);
    }

    // What a successful fetch leads to.
    method Record(matches: Matcher, upstream: seq<string>, now: int, auto: bool)
      returns (modelsChanged: bool, autoAdded: nat)
      modifies this
      ensures View() == if auto then AutoSynced(old(View()), mapping, matches, upstream, now)
                        else Detected(old(View()), mapping, matches, upstream, now)
      ensures lastCheck == now && (!modelsChanged ==> models == old(models) && autoAdded == 0)
      ensures var add := PendingAdd(matches, ReadList(old(models), ','), upstream, old(ignored), mapping);
        (modelsChanged <==> auto && |add| > 0) && (modelsChanged ==> autoAdded == |add|)
    {
      modelsChanged, autoAdded := false, 0;
      ghost var c := View();
      lastCheck := now;
      var pendingAdd := PendingAdd(matches, ReadList(models, ','), upstream, ignored, mapping);
      var pendingRemove := PendingRemove(ReadList(models, ','), upstream, mapping);
      PendingIsNormal(matches, ReadList(models, ','), upstream, ignored, mapping);
      if auto && |pendingAdd| > 0 {
        AutoSyncedParts(c, mapping, matches, upstream, now);
        modelsChanged, autoAdded := AutoApply(pendingAdd);
        detected := [];
        removed := pendingRemove;
      } else {
        detected := pendingAdd;
        removed := pendingRemove;
      }
    }

    // The automatic branch: merging adds exactly as many models as were pending.
    method AutoApply(pendingAdd: seq<string>) returns (modelsChanged: bool, autoAdded: nat)
      requires Normal(pendingAdd) && forall name :: name in pendingAdd ==> name !in Local(models)
      modifies this`models
      ensures var merged := Merge(Local(old(models)), pendingAdd);
        && models == (if |merged| > |Local(old(models))| then Join(merged, ',') else old(models))
        && autoAdded == |merged| - |Local(old(models))| == |pendingAdd|
        && (modelsChanged <==> |pendingAdd| > 0)
    {
      modelsChanged, autoAdded := false, 0;
      var origin := Local(models);
      assert Normal(origin) by { NormalizeIsNormal(ReadList(models, ',')); }
      OnNormalLists(origin, pendingAdd);
      MinusNothing(pendingAdd, Elements(origin));
      var merged := MergeModelNames(origin, pendingAdd);
      if |merged| > |origin| {
        models := Join(merged, ',');
        autoAdded := |merged| - |origin|;
        modelsChanged := true;
      }
    }

    // applyChannelUpstreamModelUpdates.
    method ApplyUpdates(request: Selection, now: int)
      returns (added: seq<string>, removedNames: seq<string>, remaining: seq<string>, remainingRemove: seq<string>,
               modelsChanged: bool)
      modifies this
      ensures View() == Applied(old(View()), request, now)
      ensures added == Selected(old(View()), request).add && removedNames == Selected(old(View()), request).remove
      ensures remaining == detected && remainingRemove == removed && lastCheck == now
      ensures modelsChanged <==> Local(old(models)) != NextModels(old(View()), request)
    {
      var s := Select(request);
      modelsChanged := Store(s, now);
      added, removedNames, remaining, remainingRemove := s.add, s.remove, detected, removed;
    }

    // The part of the request that concerns pending names.
    method Select(request: Selection) returns (s: Selection)
      ensures s == Selected(View(), request)
    {
      var pendingAdd := Normalize(detected);
      var pendingRemove := Normalize(removed);
      var add := Intersect(request.add, pendingAdd);
      var ignore := Intersect(request.ignore, pendingAdd);
      var remove := Intersect(request.remove, pendingRemove);
      remove := Subtract(remove, add);
      s := Selection(add, ignore, remove);
    }

    method Store(s: Selection, now: int) returns (modelsChanged: bool)
      modifies this
      ensures View() == AppliedWith(old(View()), s, now)
      ensures modelsChanged <==> Local(old(models)) != ApplySelected(Local(old(models)), s.add, s.remove)
    {
      modelsChanged := StoreModels(s);
      StoreIgnored(s);
      StorePending(s, now);
    }

    method StoreModels(s: Selection) returns (modelsChanged: bool)
      modifies this`models
      ensures models == ModelsWith(old(models), s)
      ensures modelsChanged <==> Local(old(models)) != ApplySelected(Local(old(models)), s.add, s.remove)
    {
      var origin := Local(models);
      var next := ApplySelected(origin, s.add, s.remove);
      modelsChanged := origin != next;
      if modelsChanged {
        models := Join(next, ',');
      }
    }

    method StoreIgnored(s: Selection)
      modifies this`ignored
      ensures ignored == IgnoredWith(old(ignored), s)
    {
      ignored := MergeModelNames(ignored, s.ignore);
      if |s.add| > 0 {
        ignored := Subtract(ignored, s.add);
      }
    }

    method StorePending(s: Selection, now: int)
      modifies this`detected, this`removed, this`lastCheck
      ensures detected == Subtract(Normalize(old(detected)), s.add + s.ignore)
      ensures removed == Subtract(Normalize(old(removed)), s.remove)
      ensures lastCheck == now
    {
      detected := Subtract(Normalize(detected), s.add + s.ignore);
      removed := Subtract(Normalize(removed), s.remove);
      lastCheck := now;
    }
  }

  // What applying promises

  lemma LocalIsNormal(models: string)
    ensures Normal(Local(models))
  {
    NormalizeIsNormal(ReadList(models, ','));
  }

  lemma LocalHasNoComma(models: string, name: string)
    requires name in Local(models)
    ensures ',' !in name
  {
    var parts := ReadList(models, ',');
    assert name in Cleaned(parts);
    var i := CleanedFrom(parts, name);
  }

  // A cleaned name is one of the names, trimmed.
  lemma {:induction false} CleanedFrom(models: seq<string>, name: string) returns (i: nat)
    requires name in Cleaned(models)
    ensures i < |models| && name == TrimSpace(models[i]) && forall c :: c in name ==> c in models[i]
  {
    var last := |models| - 1;
    if name in Cleaned(models[..last]) {
      i := CleanedFrom(models[..last], name);
    } else {
      i := last;
      TrimIsTight(models[last], IsSpace);
    }
  }

  lemma SelectedAreNormal(c: Sync, request: Selection)
    ensures var s := Selected(c, request);
      && Normal(s.add) && Normal(s.ignore) && Normal(s.remove)
      && Elements(s.add) == Elements(Normalize(request.add)) * Elements(Normalize(c.detected))
      && Elements(s.ignore) == Elements(Normalize(request.ignore)) * Elements(Normalize(c.detected))
      && Elements(s.remove) == Elements(Normalize(request.remove)) * Elements(Normalize(c.removed)) - Elements(s.add)
  {
    IntersectIsNormal(request.add, c.detected);
    IntersectIsNormal(request.ignore, c.detected);
    IntersectIsNormal(request.remove, c.removed);
    OnNormalLists(Intersect(request.remove, Normalize(c.removed)), Selected(c, request).add);
  }

  lemma IntersectIsNormal(a: seq<string>, b: seq<string>)
    ensures var both := Intersect(a, Normalize(b));
      Normal(both) && Elements(both) == Elements(Normalize(a)) * Elements(Normalize(b))
  {
    assert Normal(Normalize(a)) && Normal(Normalize(b)) by { NormalizeIsNormal(a); NormalizeIsNormal(b); }
    assert Normalize(Normalize(b)) == Normalize(b) by { NormalizeIsNormal(Normalize(b)); }
    MeetNoDup(Normalize(a), Elements(Normalize(b)));
  }

  lemma SubtractElements(a: seq<string>, b: seq<string>)
    requires Normal(a) && AllClean(b)
    ensures Elements(Subtract(a, b)) == Elements(a) - Elements(b)
  {
    assert Normalize(a) == a by { NormalizeIsNormal(a); }
    assert Cleaned(b) == b by { CleanedOfClean(b); }
    assert Elements(Normalize(b)) == Elements(b);
  }

  lemma ModelsAlgebra(c: Sync, request: Selection)
    ensures var s, o, next := Selected(c, request), Local(c.models), NextModels(c, request);
      && next == Minus(o, Elements(s.remove)) + Minus(s.add, Elements(o))
      && Normal(next)
      && Elements(next) == (Elements(o) + Elements(s.add)) - Elements(s.remove)
  {
    var s, o := Selected(c, request), Local(c.models);
    SelectedAreNormal(c, request);
    assert Normalize(o) == o by { LocalIsNormal(c.models); NormalizeIsNormal(o); }
    assert Normalize(s.add) == s.add by { NormalizeIsNormal(s.add); }
    assert Normalize(s.remove) == s.remove by { NormalizeIsNormal(s.remove); }
    ApplySelectedAlgebra(o, s.add, s.remove);
    assert Elements(s.remove) - Elements(s.add) == Elements(s.remove);
  }

  lemma Together(a: seq<string>, b: seq<string>)
    requires AllClean(a) && AllClean(b)
    ensures AllClean(a + b) && Elements(a + b) == Elements(a) + Elements(b)
  {
  }

  lemma DetectedAlgebra(c: Sync, request: Selection, now: int)
    ensures Elements(Applied(c, request, now).detected) ==
      Elements(Normalize(c.detected)) - Elements(Selected(c, request).add) - Elements(Selected(c, request).ignore)
  {
    var s := Selected(c, request);
    SelectedAreNormal(c, request);
    assert Normal(Normalize(c.detected)) by { NormalizeIsNormal(c.detected); }
    Together(s.add, s.ignore);
    SubtractElements(Normalize(c.detected), s.add + s.ignore);
  }

  lemma RemovedAlgebra(c: Sync, request: Selection, now: int)
    ensures Elements(Applied(c, request, now).removed) ==
      Elements(Normalize(c.removed)) - Elements(Selected(c, request).remove)
  {
    SelectedAreNormal(c, request);
    assert Normal(Normalize(c.removed)) by { NormalizeIsNormal(c.removed); }
    SubtractElements(Normalize(c.removed), Selected(c, request).remove);
  }

  // The new list is the old one without what is removed, in its order, then the additions, without
  // duplicates; a pending addition remains exactly when it is neither added nor ignored; adding beats both
  // ignoring and removing; only pending names are ever touched.
  lemma ApplyAlgebra(c: Sync, request: Selection, now: int)
    ensures var s, o := Selected(c, request), Local(c.models);
      var next, c' := NextModels(c, request), Applied(c, request, now);
      && next == Minus(o, Elements(s.remove)) + Minus(s.add, Elements(o))
      && NoDup(next)
      && Elements(next) == (Elements(o) + Elements(s.add)) - Elements(s.remove)
      && Elements(s.add) !! Elements(s.remove)
      && Elements(c'.detected) == Elements(Normalize(c.detected)) - Elements(s.add) - Elements(s.ignore)
      && Elements(c'.removed) == Elements(Normalize(c.removed)) - Elements(s.remove)
      && Elements(c'.ignored) == Elements(Normalize(c.ignored)) + Elements(s.ignore) - Elements(s.add)
  {
    ModelsAlgebra(c, request);
    SelectedAreNormal(c, request);
    DetectedAlgebra(c, request, now);
    RemovedAlgebra(c, request, now);
    IgnoredAlgebra(c, request);
  }

  lemma IgnoredAlgebra(c: Sync, request: Selection)
    ensures var s := Selected(c, request);
      Elements(NextIgnored(c, request)) == Elements(Normalize(c.ignored)) + Elements(s.ignore) - Elements(s.add)
  {
    var s := Selected(c, request);
    SelectedAreNormal(c, request);
    assert Normalize(s.ignore) == s.ignore by { NormalizeIsNormal(s.ignore); }
    assert Normal(Normalize(c.ignored)) by { NormalizeIsNormal(c.ignored); }
    var merged := Merge(c.ignored, s.ignore);
    assert Elements(merged) == Elements(Normalize(c.ignored)) + Elements(s.ignore);
    assert Normal(merged) by { AppendKeepsNormal(Normalize(c.ignored), s.ignore); }
    SubtractElements(merged, s.add);
  }

  // Convergence

  // The request selects everything that is pending. (Whatever it asks to ignore is then added instead.)
  predicate SelectsAll(d: Sync, request: Selection) {
    && Elements(Normalize(d.detected)) <= Elements(Normalize(request.add))
    && Elements(Normalize(d.removed)) <= Elements(Normalize(request.remove))
  }

  // Nothing is pending any more when the list is detected again against the same upstream list.
  predicate Converged(c: Sync, mapping: map<string, string>, matches: Matcher, upstream: seq<string>, now: int) {
    var d := Detected(c, mapping, matches, upstream, now);
    |d.detected| == 0 && |d.removed| == 0
  }

  function Additions(c: Sync, mapping: map<string, string>, matches: Matcher, upstream: seq<string>): seq<string> {
    PendingAdd(matches, ReadList(c.models, ','), upstream, c.ignored, mapping)
  }

  predicate HasComma(name: string) {
    ',' in name
  }

  predicate NoComma(names: seq<string>) {
    forall name :: name in names ==> !HasComma(name)
  }

  lemma WithComma(names: seq<string>) returns (name: string)
    requires !NoComma(names)
    ensures name in names && HasComma(name)
  {
    name :| name in names && HasComma(name);
  }

  // The stored list is one string, so a name with a comma does not survive being stored.
  predicate NoCommaAdded(c: Sync, mapping: map<string, string>, matches: Matcher, upstream: seq<string>) {
    NoComma(Additions(c, mapping, matches, upstream))
  }

  // Applying drops added names from the ignore list, patterns included; what a dropped pattern kept away
  // must be kept away by another one.
  predicate RulesSuffice(c: Sync, mapping: map<string, string>, matches: Matcher, upstream: seq<string>) {
    forall name :: name in Normalize(upstream) ==> StaysHidden(c, mapping, matches, upstream, name)
  }

  predicate StaysHidden(c: Sync, mapping: map<string, string>, matches: Matcher, upstream: seq<string>, name: string) {
    var rules := Elements(Normalize(c.ignored));
    name !in Local(c.models) && name !in mapping.Values && IsIgnored(matches, rules, name) ==>
      IsIgnored(matches, rules - Elements(Additions(c, mapping, matches, upstream)), name)
  }

  lemma StoredListIsReadBack(names: seq<string>)
    requires Normal(names) && forall name :: name in names ==> !HasComma(name)
    ensures Local(Join(names, ',')) == names
  {
    assert forall i :: 0 <= i < |names| ==> names[i] in names;
    ReadBack(names, ',');
    NormalizeIsNormal(names);
  }

  lemma AppliedIgnoredIsNormal(d: Sync, request: Selection)
    ensures Normalize(NextIgnored(d, request)) == NextIgnored(d, request)
  {
    var s := Selected(d, request);
    SelectedAreNormal(d, request);
    assert Normal(Normalize(d.ignored)) by { NormalizeIsNormal(d.ignored); }
    assert Normalize(s.ignore) == s.ignore by { NormalizeIsNormal(s.ignore); }
    var merged := Merge(d.ignored, s.ignore);
    assert Normal(merged) by { AppendKeepsNormal(Normalize(d.ignored), s.ignore); }
    OnNormalLists(merged, s.add);
    NormalizeIsNormal(NextIgnored(d, request));
  }

  // Selecting everything that is pending selects the pending lists.
  lemma SelectAll(d: Sync, request: Selection)
    requires Normal(d.detected) && Normal(d.removed) && Elements(d.detected) !! Elements(d.removed)
    requires SelectsAll(d, request)
    ensures var s := Selected(d, request);
      Elements(s.add) == Elements(d.detected) && Elements(s.remove) == Elements(d.removed) &&
      Elements(s.ignore) <= Elements(s.add)
  {
    assert Normalize(d.detected) == d.detected by { NormalizeIsNormal(d.detected); }
    assert Normalize(d.removed) == d.removed by { NormalizeIsNormal(d.removed); }
    SelectedAreNormal(d, request);
  }

  lemma DetectedIsNormal(c: Sync, mapping: map<string, string>, matches: Matcher, upstream: seq<string>, now: int)
    ensures var d := Detected(c, mapping, matches, upstream, now);
      && Normal(d.detected) && Normal(d.removed) && Elements(d.detected) !! Elements(d.removed)
      && d.models == c.models && d.ignored == c.ignored
  {
    PendingIsNormal(matches, ReadList(c.models, ','), upstream, c.ignored, mapping);
  }

  // What one detection and application do, as sets.
  lemma RoundSets(c: Sync, mapping: map<string, string>, matches: Matcher, upstream: seq<string>, now: int,
                  request: Selection)
    requires SelectsAll(Detected(c, mapping, matches, upstream, now), request)
    ensures var d := Detected(c, mapping, matches, upstream, now);
      && Elements(NextModels(d, request)) == (Elements(Local(c.models)) + Elements(d.detected)) - Elements(d.removed)
      && Elements(Normalize(NextIgnored(d, request))) == Elements(Normalize(c.ignored)) - Elements(d.detected)
  {
    var d := Detected(c, mapping, matches, upstream, now);
    DetectedIsNormal(c, mapping, matches, upstream, now);
    SelectAll(d, request);
    ModelsAlgebra(d, request);
    IgnoredAlgebra(d, request);
    AppliedIgnoredIsNormal(d, request);
  }

  // PendingIsNormal at one name.
  lemma InAdditions(c: Sync, mapping: map<string, string>, matches: Matcher, upstream: seq<string>, name: string)
    ensures name in Additions(c, mapping, matches, upstream) <==>
      && name in Normalize(upstream) && name !in Local(c.models) && name !in mapping.Values
      && !IsIgnored(matches, Elements(Normalize(c.ignored)), name)
  {
    PendingIsNormal(matches, ReadList(c.models, ','), upstream, c.ignored, mapping);
  }

  lemma CommaIsNotLocal(models: string, name: string)
    requires HasComma(name)
    ensures name !in Local(models)
  {
    if name in Local(models) {
      LocalHasNoComma(models, name);
    }
  }

  lemma FewerRules(matches: Matcher, rules: set<string>, rules': set<string>, name: string)
    requires rules' <= rules && !IsIgnored(matches, rules, name)
    ensures !IsIgnored(matches, rules', name)
  {
  }

  // A name with a comma is detected again and again.
  lemma CommaIsDetectedAgain(c: Sync, c': Sync, mapping: map<string, string>, matches: Matcher, upstream: seq<string>,
                             name: string)
    requires name in Additions(c, mapping, matches, upstream) && HasComma(name)
    requires Elements(Normalize(c'.ignored)) <= Elements(Normalize(c.ignored))
    ensures name in Additions(c', mapping, matches, upstream)
  {
    InAdditions(c, mapping, matches, upstream, name);
    InAdditions(c', mapping, matches, upstream, name);
    CommaIsNotLocal(c'.models, name);
    FewerRules(matches, Elements(Normalize(c.ignored)), Elements(Normalize(c'.ignored)), name);
  }

  // Without commas the applied list is stored as it is.
  lemma NextIsStored(c: Sync, mapping: map<string, string>, matches: Matcher, upstream: seq<string>, now: int,
                     request: Selection)
    requires SelectsAll(Detected(c, mapping, matches, upstream, now), request)
    requires NoCommaAdded(c, mapping, matches, upstream)
    ensures var d := Detected(c, mapping, matches, upstream, now);
      Local(Applied(d, request, now).models) == NextModels(d, request)
  {
    var d := Detected(c, mapping, matches, upstream, now);
    var next := NextModels(d, request);
    RoundSets(c, mapping, matches, upstream, now, request);
    ModelsAlgebra(d, request);
    forall name | name in next
      ensures !HasComma(name)
    {
      assert name in Elements(next);
      if name in Local(c.models) { LocalHasNoComma(c.models, name); }
    }
    StoredListIsReadBack(next);
  }

  lemma SecondAdditions(c: Sync, mapping: map<string, string>, matches: Matcher, upstream: seq<string>, now: int,
                        request: Selection, name: string)
    requires SelectsAll(Detected(c, mapping, matches, upstream, now), request)
    requires NoCommaAdded(c, mapping, matches, upstream)
    ensures var d := Detected(c, mapping, matches, upstream, now);
      name in Additions(Applied(d, request, now), mapping, matches, upstream) <==>
           && name in Normalize(upstream) && name !in Local(c.models) && name !in d.detected && name !in mapping.Values
           && !IsIgnored(matches, Elements(Normalize(c.ignored)) - Elements(d.detected), name)
  {
    var d := Detected(c, mapping, matches, upstream, now);
    var c' := Applied(d, request, now);
    RoundSets(c, mapping, matches, upstream, now, request);
    NextIsStored(c, mapping, matches, upstream, now, request);
    InAdditions(c', mapping, matches, upstream, name);
    assert name in NextModels(d, request) <==> name in Elements(NextModels(d, request));
    NotRemoved(c, mapping, upstream, name);
  }

  lemma NotRemoved(c: Sync, mapping: map<string, string>, upstream: seq<string>, name: string)
    ensures name in Normalize(upstream) ==> name !in PendingRemove(ReadList(c.models, ','), upstream, mapping)
  {
    PendingIsNormal((pattern, model) => false, ReadList(c.models, ','), upstream, c.ignored, mapping);
  }

  lemma SecondRemovals(c: Sync, mapping: map<string, string>, matches: Matcher, upstream: seq<string>, now: int,
                       request: Selection)
    requires SelectsAll(Detected(c, mapping, matches, upstream, now), request)
    requires NoCommaAdded(c, mapping, matches, upstream)
    ensures var d := Detected(c, mapping, matches, upstream, now);
      |PendingRemove(ReadList(Applied(d, request, now).models, ','), upstream, mapping)| == 0
  {
    var d := Detected(c, mapping, matches, upstream, now);
    var c' := Applied(d, request, now);
    RoundSets(c, mapping, matches, upstream, now, request);
    NextIsStored(c, mapping, matches, upstream, now, request);
    PendingIsNormal(matches, ReadList(c.models, ','), upstream, c.ignored, mapping);
    PendingIsNormal(matches, ReadList(c'.models, ','), upstream, c'.ignored, mapping);
    var again := PendingRemove(ReadList(c'.models, ','), upstream, mapping);
    HasElement(again);
    assert forall name :: name in NextModels(d, request) <==> name in Elements(NextModels(d, request));
  }

  // Detecting, applying everything and detecting again finds nothing, exactly when no added name holds a
  // comma and no dropped pattern was the only one keeping an uncovered upstream name away.
  lemma ConvergesExactlyWhen(c: Sync, mapping: map<string, string>, matches: Matcher, upstream: seq<string>, now: int,
                             request: Selection)
    requires SelectsAll(Detected(c, mapping, matches, upstream, now), request)
    ensures var d := Detected(c, mapping, matches, upstream, now);
      Converged(Applied(d, request, now), mapping, matches, upstream, now) <==>
      NoCommaAdded(c, mapping, matches, upstream) && RulesSuffice(c, mapping, matches, upstream)
  {
    if NoCommaAdded(c, mapping, matches, upstream) {
      ConvergesWithoutCommas(c, mapping, matches, upstream, now, request);
    } else {
      NoMoreRules(c, mapping, matches, upstream, now, request);
      CommaBlocks(c, Applied(Detected(c, mapping, matches, upstream, now), request, now), mapping, matches, upstream);
    }
  }

  lemma NoMoreRules(c: Sync, mapping: map<string, string>, matches: Matcher, upstream: seq<string>, now: int,
                    request: Selection)
    requires SelectsAll(Detected(c, mapping, matches, upstream, now), request)
    ensures var c' := Applied(Detected(c, mapping, matches, upstream, now), request, now);
      Elements(Normalize(c'.ignored)) <= Elements(Normalize(c.ignored))
  {
    RoundSets(c, mapping, matches, upstream, now, request);
  }

  lemma CommaBlocks(c: Sync, c': Sync, mapping: map<string, string>, matches: Matcher, upstream: seq<string>)
    requires !NoCommaAdded(c, mapping, matches, upstream)
    requires Elements(Normalize(c'.ignored)) <= Elements(Normalize(c.ignored))
    ensures |Additions(c', mapping, matches, upstream)| > 0
  {
    var name := WithComma(Additions(c, mapping, matches, upstream));
    CommaIsDetectedAgain(c, c', mapping, matches, upstream, name);
    NotEmpty(Additions(c', mapping, matches, upstream), name);
  }

  lemma NotEmpty(names: seq<string>, name: string)
    requires name in names
    ensures |names| > 0
  {
  }

  lemma ConvergesWithoutCommas(c: Sync, mapping: map<string, string>, matches: Matcher, upstream: seq<string>,
                               now: int, request: Selection)
    requires SelectsAll(Detected(c, mapping, matches, upstream, now), request)
    requires NoCommaAdded(c, mapping, matches, upstream)
    ensures var d := Detected(c, mapping, matches, upstream, now);
      Converged(Applied(d, request, now), mapping, matches, upstream, now) <==>
      RulesSuffice(c, mapping, matches, upstream)
  {
    var d := Detected(c, mapping, matches, upstream, now);
    var again := Additions(Applied(d, request, now), mapping, matches, upstream);
    forall name
      ensures name in again <==>
         && name in Normalize(upstream) && name !in Local(c.models) && name !in d.detected && name !in mapping.Values
         && !IsIgnored(matches, Elements(Normalize(c.ignored)) - Elements(d.detected), name)
    {
      SecondAdditions(c, mapping, matches, upstream, now, request, name);
    }
    SecondIsEmpty(c, mapping, matches, upstream, d.detected, again);
    SecondRemovals(c, mapping, matches, upstream, now, request);
  }

  lemma HasElement(names: seq<string>)
    ensures |names| > 0 ==> Elements(names) != {}
  {
    if |names| > 0 {
      assert names[0] in Elements(names);
    }
  }

  lemma SecondIsEmpty(c: Sync, mapping: map<string, string>, matches: Matcher, upstream: seq<string>,
                      first: seq<string>, second: seq<string>)
    requires first == Additions(c, mapping, matches, upstream)
    requires forall name :: name in second <==>
      && name in Normalize(upstream) && name !in Local(c.models) && name !in first && name !in mapping.Values
      && !IsIgnored(matches, Elements(Normalize(c.ignored)) - Elements(first), name)
    ensures |second| == 0 <==> RulesSuffice(c, mapping, matches, upstream)
  {
    PendingIsNormal(matches, ReadList(c.models, ','), upstream, c.ignored, mapping);
    if |second| > 0 {
      assert second[0] in second;
    }
  }

  // In particular it does whenever no upstream name holds a comma or looks like a pattern.
  lemma ConvergesOnPlainNames(c: Sync, mapping: map<string, string>, matches: Matcher, upstream: seq<string>, now: int,
                              request: Selection)
    requires SelectsAll(Detected(c, mapping, matches, upstream, now), request)
    requires forall name :: name in Normalize(upstream) ==> !HasComma(name) && !HasPrefix(name, REGEX_PREFIX)
    ensures Converged(Applied(Detected(c, mapping, matches, upstream, now), request, now), mapping, matches, upstream,
                      now)
  {
    ConvergesExactlyWhen(c, mapping, matches, upstream, now, request);
    PendingIsNormal(matches, ReadList(c.models, ','), upstream, c.ignored, mapping);
    var rules := Elements(Normalize(c.ignored));
    var added := Elements(Additions(c, mapping, matches, upstream));
    forall name | name in Normalize(upstream)
      ensures StaysHidden(c, mapping, matches, upstream, name)
    {
      if rule :| rule in rules && Ignores(matches, rule, name) {
        if rule in added {
          assert Ignores(matches, rule, rule);
        }
      }
    }
  }

  // Automatic sync drops no rule: checking again adds nothing exactly when no pending name held a comma.
  lemma AutoSettlesExactlyWhen(c: Sync, mapping: map<string, string>, matches: Matcher, upstream: seq<string>, now: int)
    ensures |Additions(AutoSynced(c, mapping, matches, upstream, now), mapping, matches, upstream)| == 0 <==>
            NoCommaAdded(c, mapping, matches, upstream)
  {
    var c', added := AutoSynced(c, mapping, matches, upstream, now), Additions(c, mapping, matches, upstream);
    if !NoCommaAdded(c, mapping, matches, upstream) {
      CommaBlocks(c, c', mapping, matches, upstream);
    } else if |added| > 0 {
      AutoStored(c, mapping, matches, upstream, now);
      forall name ensures name !in Additions(c', mapping, matches, upstream) {
        InAdditions(c, mapping, matches, upstream, name);
        InAdditions(c', mapping, matches, upstream, name);
      }
      HasElement(Additions(c', mapping, matches, upstream));
    }
  }

  // Without commas the merged list is stored as it is, the old names first and the new ones behind them.
  lemma AutoStored(c: Sync, mapping: map<string, string>, matches: Matcher, upstream: seq<string>, now: int)
    requires NoCommaAdded(c, mapping, matches, upstream) && |Additions(c, mapping, matches, upstream)| > 0
    ensures var c' := AutoSynced(c, mapping, matches, upstream, now);
      Local(c'.models) == Local(c.models) + Additions(c, mapping, matches, upstream) && c'.ignored == c.ignored
  {
    var origin, added := Local(c.models), Additions(c, mapping, matches, upstream);
    AutoSyncedParts(c, mapping, matches, upstream, now);
    PendingIsNormal(matches, ReadList(c.models, ','), upstream, c.ignored, mapping);
    LocalIsNormal(c.models);
    OnNormalLists(origin, added);
    MinusNothing(added, Elements(origin));
    AppendKeepsNormal(origin, added);
    forall name | name in origin + added ensures !HasComma(name) {
      if name in origin {
        LocalHasNoComma(c.models, name);
      }
    }
    StoredListIsReadBack(origin + added);
  }

  // Neither condition can be dropped

  // An offered name that holds a comma, say "a,b", and is neither redirected to nor ignored.
  lemma CommaFails(c: Sync, mapping: map<string, string>, matches: Matcher, upstream: seq<string>, name: string)
    requires name in Normalize(upstream) && HasComma(name) && name !in mapping.Values
    requires !IsIgnored(matches, Elements(Normalize(c.ignored)), name)
    ensures !NoCommaAdded(c, mapping, matches, upstream)
  {
    CommaIsNotLocal(c.models, name);
    InAdditions(c, mapping, matches, upstream, name);
  }

  // An offered name spelled like the only pattern, say "regex:^y$", that hides another offered name: adding
  // the one forgets the pattern, so the other one turns up.
  lemma PatternFails(c: Sync, mapping: map<string, string>, matches: Matcher, upstream: seq<string>, rule: string,
                     name: string)
    requires Elements(Normalize(c.ignored)) == {rule} && Ignores(matches, rule, name) && !Ignores(matches, rule, rule)
    requires rule in Normalize(upstream) && rule !in Local(c.models) && rule !in mapping.Values
    requires name in Normalize(upstream) && name !in Local(c.models) && name !in mapping.Values
    ensures !RulesSuffice(c, mapping, matches, upstream)
  {
    var rules, added := Elements(Normalize(c.ignored)), Additions(c, mapping, matches, upstream);
    OnlyRule(matches, rules, rule, rule);
    OnlyRule(matches, rules, rule, name);
    InAdditions(c, mapping, matches, upstream, rule);
    OnlyRuleDropped(matches, rules, Elements(added), rule, name);
    assert !StaysHidden(c, mapping, matches, upstream, name);
  }

  lemma OnlyRule(matches: Matcher, rules: set<string>, rule: string, name: string)
    requires rules == {rule}
    ensures IsIgnored(matches, rules, name) <==> Ignores(matches, rule, name)
  {
  }

  lemma OnlyRuleDropped(matches: Matcher, rules: set<string>, added: set<string>, rule: string, name: string)
    requires rules == {rule} && rule in added
    ensures !IsIgnored(matches, rules - added, name)
  {
    assert rules - added == {};
  }

  lemma NormalizedAlready(names: seq<string>)
    requires Normal(names)
    ensures Normalize(names) == names
  {
    NormalizeIsNormal(names);
  }

  // Asking for every upstream name and every pending removal selects everything.
  lemma EverythingSelected(c: Sync, mapping: map<string, string>, matches: Matcher, upstream: seq<string>, now: int)
    ensures var d := Detected(c, mapping, matches, upstream, now);
      SelectsAll(d, Selection(upstream, [], d.removed))
  {
    var d := Detected(c, mapping, matches, upstream, now);
    DetectedIsNormal(c, mapping, matches, upstream, now);
    NormalizedAlready(d.detected);
    PendingIsNormal(matches, ReadList(c.models, ','), upstream, c.ignored, mapping);
  }

  // The whole cycle with everything selected, and a run of such rounds.

  function Round(c: Sync, mapping: map<string, string>, matches: Matcher, upstream: seq<string>, now: int): Sync {
    var d := Detected(c, mapping, matches, upstream, now);
    Applied(d, Selection(upstream, [], d.removed), now)
  }

  function Rules(c: Sync): set<string> {
    Elements(Normalize(c.ignored))
  }

  lemma RoundExactlyWhen(c: Sync, mapping: map<string, string>, matches: Matcher, upstream: seq<string>, now: int)
    ensures Converged(Round(c, mapping, matches, upstream, now), mapping, matches, upstream, now) <==>
            NoCommaAdded(c, mapping, matches, upstream) && RulesSuffice(c, mapping, matches, upstream)
  {
    var d := Detected(c, mapping, matches, upstream, now);
    EverythingSelected(c, mapping, matches, upstream, now);
    ConvergesExactlyWhen(c, mapping, matches, upstream, now, Selection(upstream, [], d.removed));
  }

  lemma RoundRules(c: Sync, mapping: map<string, string>, matches: Matcher, upstream: seq<string>, now: int)
    ensures Rules(Round(c, mapping, matches, upstream, now)) ==
      Rules(c) - Elements(Additions(c, mapping, matches, upstream))
  {
    var d := Detected(c, mapping, matches, upstream, now);
    EverythingSelected(c, mapping, matches, upstream, now);
    RoundSets(c, mapping, matches, upstream, now, Selection(upstream, [], d.removed));
  }

  lemma UncoveredName(c: Sync, mapping: map<string, string>, matches: Matcher, upstream: seq<string>)
    requires !RulesSuffice(c, mapping, matches, upstream)
    ensures |Rules(c) - Elements(Additions(c, mapping, matches, upstream))| < |Rules(c)|
  {
    var rules, added := Rules(c), Elements(Additions(c, mapping, matches, upstream));
    var name :| name in Normalize(upstream) && !StaysHidden(c, mapping, matches, upstream, name);
    FewerThanBefore(matches, rules, added, name);
  }

  lemma FewerThanBefore(matches: Matcher, rules: set<string>, added: set<string>, name: string)
    requires IsIgnored(matches, rules, name) && !IsIgnored(matches, rules - added, name)
    ensures |rules - added| < |rules|
  {
    var rule :| rule in rules && Ignores(matches, rule, name);
    assert rule in rules * added;
  }

  // A round that adds no name with a comma settles the list or drops a rule.
  lemma RoundProgresses(c: Sync, mapping: map<string, string>, matches: Matcher, upstream: seq<string>, now: int)
    requires NoCommaAdded(c, mapping, matches, upstream)
    ensures var c' := Round(c, mapping, matches, upstream, now);
      Converged(c', mapping, matches, upstream, now) || |Rules(c')| < |Rules(c)|
  {
    RoundExactlyWhen(c, mapping, matches, upstream, now);
    if !RulesSuffice(c, mapping, matches, upstream) {
      RoundRules(c, mapping, matches, upstream, now);
      UncoveredName(c, mapping, matches, upstream);
    }
  }

  // A list with nothing pending stays so.
  lemma StaysConverged(c: Sync, mapping: map<string, string>, matches: Matcher, upstream: seq<string>, now: int)
    requires Converged(c, mapping, matches, upstream, now)
    ensures NoCommaAdded(c, mapping, matches, upstream)
    ensures Converged(Round(c, mapping, matches, upstream, now), mapping, matches, upstream, now)
  {
    NothingAdded(c, mapping, matches, upstream);
    RoundExactlyWhen(c, mapping, matches, upstream, now);
  }

  lemma NothingAdded(c: Sync, mapping: map<string, string>, matches: Matcher, upstream: seq<string>)
    requires |Additions(c, mapping, matches, upstream)| == 0
    ensures NoCommaAdded(c, mapping, matches, upstream) && RulesSuffice(c, mapping, matches, upstream)
  {
    NothingTaken(Rules(c), Additions(c, mapping, matches, upstream));
  }

  lemma NothingTaken(rules: set<string>, names: seq<string>)
    requires |names| == 0
    ensures rules - Elements(names) == rules
  {
    assert Elements(names) == {};
  }

  // A name with a comma that is added once is pending again after every round.
  lemma CommaStaysPending(c: Sync, mapping: map<string, string>, matches: Matcher, upstream: seq<string>, now: int)
    requires !NoCommaAdded(c, mapping, matches, upstream)
    ensures !NoCommaAdded(Round(c, mapping, matches, upstream, now), mapping, matches, upstream)
  {
    var name := WithComma(Additions(c, mapping, matches, upstream));
    RoundRules(c, mapping, matches, upstream, now);
    CommaIsDetectedAgain(c, Round(c, mapping, matches, upstream, now), mapping, matches, upstream, name);
  }

  function Step(mapping: map<string, string>, matches: Matcher, upstream: seq<string>, now: int): Sync -> Sync {
    c => Round(c, mapping, matches, upstream, now)
  }

  function RuleCount(): Sync -> nat {
    c => |Rules(c)|
  }

  function AddsNoComma(mapping: map<string, string>, matches: Matcher, upstream: seq<string>): Sync -> bool {
    c => NoCommaAdded(c, mapping, matches, upstream)
  }

  function Settled(mapping: map<string, string>, matches: Matcher, upstream: seq<string>, now: int): Sync -> bool {
    c => Converged(c, mapping, matches, upstream, now)
  }

  function Rounds(c: Sync, mapping: map<string, string>, matches: Matcher, upstream: seq<string>, now: int, n: nat)
    : Sync
  {
    Iterate(Step(mapping, matches, upstream, now), c, n)
  }

  lemma RoundsProgress(mapping: map<string, string>, matches: Matcher, upstream: seq<string>, now: int)
    ensures Progresses(Step(mapping, matches, upstream, now), RuleCount(), AddsNoComma(mapping, matches, upstream),
                       Settled(mapping, matches, upstream, now))
  {
    forall c: Sync
      ensures var c' := Round(c, mapping, matches, upstream, now);
        && (NoCommaAdded(c, mapping, matches, upstream) ==>
            Converged(c', mapping, matches, upstream, now) || |Rules(c')| < |Rules(c)|)
        && (Converged(c, mapping, matches, upstream, now) ==>
            NoCommaAdded(c, mapping, matches, upstream) && Converged(c', mapping, matches, upstream, now))
        && (!NoCommaAdded(c, mapping, matches, upstream) ==> !NoCommaAdded(c', mapping, matches, upstream))
    {
      if NoCommaAdded(c, mapping, matches, upstream) {
        RoundProgresses(c, mapping, matches, upstream, now);
      } else {
        CommaStaysPending(c, mapping, matches, upstream, now);
      }
      if Converged(c, mapping, matches, upstream, now) {
        StaysConverged(c, mapping, matches, upstream, now);
      }
    }
  }

  // Repeating the cycle reaches a list with nothing pending, and keeps it, once there were more rounds than rules,
  // if no name with a comma is then added; and if that many rounds do not reach it, none do.
  lemma SettlesByThen(c: Sync, mapping: map<string, string>, matches: Matcher, upstream: seq<string>, now: int, n: nat)
    ensures var enough := |Rules(c)|;
      var settled := Converged(Rounds(c, mapping, matches, upstream, now, n), mapping, matches, upstream, now);
      var plain := NoCommaAdded(Rounds(c, mapping, matches, upstream, now, enough), mapping, matches, upstream);
      (n > enough ==> (settled <==> plain)) && (settled ==> plain)
  {
    RoundsProgress(mapping, matches, upstream, now);
    GoalExactlyWhen(Step(mapping, matches, upstream, now), RuleCount(), AddsNoComma(mapping, matches, upstream),
                    Settled(mapping, matches, upstream, now), c, n);
  }

  // Rules that keep themselves and keep the commas away: an offered name that is not covered, and that is one of
  // these rules or holds a comma, is ignored by these rules.

  predicate Covered(c: Sync, mapping: map<string, string>, name: string) {
    name in Local(c.models) || name in mapping.Values
  }

  predicate Guards(c: Sync, mapping: map<string, string>, matches: Matcher, upstream: seq<string>, rules: set<string>) {
    rules <= Rules(c) && forall name :: name in Normalize(upstream) ==> Guarded(c, mapping, matches, rules, name)
  }

  predicate Guarded(c: Sync, mapping: map<string, string>, matches: Matcher, rules: set<string>, name: string) {
    !Covered(c, mapping, name) && (name in rules || HasComma(name)) ==> IsIgnored(matches, rules, name)
  }

  lemma NotIgnoredByFewer(matches: Matcher, rules: set<string>, all: set<string>, name: string)
    requires rules <= all && IsIgnored(matches, rules, name)
    ensures IsIgnored(matches, all, name)
  {
  }

  // With such rules no name with a comma is added, and none of the rules.
  lemma GuardsAdditions(c: Sync, mapping: map<string, string>, matches: Matcher, upstream: seq<string>,
                        rules: set<string>)
    requires Guards(c, mapping, matches, upstream, rules)
    ensures NoCommaAdded(c, mapping, matches, upstream)
    ensures rules !! Elements(Additions(c, mapping, matches, upstream))
  {
    forall name | name in Additions(c, mapping, matches, upstream)
      ensures !HasComma(name) && name !in rules
    {
      InAdditions(c, mapping, matches, upstream, name);
      assert Guarded(c, mapping, matches, rules, name);
      if IsIgnored(matches, rules, name) {
        NotIgnoredByFewer(matches, rules, Rules(c), name);
      }
    }
  }

  // Offered names that are local after a round were so before or were added.
  lemma RoundCovers(c: Sync, mapping: map<string, string>, matches: Matcher, upstream: seq<string>, now: int,
                    name: string)
    requires NoCommaAdded(c, mapping, matches, upstream) && name in Normalize(upstream)
    ensures name in Local(Round(c, mapping, matches, upstream, now).models) <==>
            name in Local(c.models) || name in Additions(c, mapping, matches, upstream)
  {
    var d := Detected(c, mapping, matches, upstream, now);
    var request := Selection(upstream, [], d.removed);
    EverythingSelected(c, mapping, matches, upstream, now);
    RoundSets(c, mapping, matches, upstream, now, request);
    NextIsStored(c, mapping, matches, upstream, now, request);
    NotRemoved(c, mapping, upstream, name);
    assert name in NextModels(d, request) <==> name in Elements(NextModels(d, request));
  }

  // A round keeps them, and does not make them up.
  lemma RoundGuards(c: Sync, mapping: map<string, string>, matches: Matcher, upstream: seq<string>, now: int,
                    rules: set<string>)
    ensures var c' := Round(c, mapping, matches, upstream, now);
      && (Guards(c, mapping, matches, upstream, rules) ==> Guards(c', mapping, matches, upstream, rules))
      && (NoCommaAdded(c, mapping, matches, upstream) && Guards(c', mapping, matches, upstream, rules) ==>
          Guards(c, mapping, matches, upstream, rules))
  {
    var c', added := Round(c, mapping, matches, upstream, now), Additions(c, mapping, matches, upstream);
    RoundRules(c, mapping, matches, upstream, now);
    if Guards(c, mapping, matches, upstream, rules) {
      GuardsAdditions(c, mapping, matches, upstream, rules);
    }
    if NoCommaAdded(c, mapping, matches, upstream) && rules <= Rules(c) && rules !! Elements(added) {
      forall name | name in Normalize(upstream) ensures AddedTo(c, c', added, name) {
        RoundCovers(c, mapping, matches, upstream, now, name);
      }
      GuardsAlike(c, c', mapping, matches, upstream, rules, added);
    }
  }

  predicate AddedTo(c: Sync, c': Sync, added: seq<string>, name: string) {
    name in Local(c'.models) <==> name in Local(c.models) || name in added
  }

  lemma GuardsAlike(c: Sync, c': Sync, mapping: map<string, string>, matches: Matcher, upstream: seq<string>,
                    rules: set<string>, added: seq<string>)
    requires forall name :: name in Normalize(upstream) ==> AddedTo(c, c', added, name)
    requires rules <= Rules(c) && rules <= Rules(c') && rules !! Elements(added) && NoComma(added)
    ensures Guards(c, mapping, matches, upstream, rules) <==> Guards(c', mapping, matches, upstream, rules)
  {
    forall name | name in Normalize(upstream)
      ensures Guarded(c, mapping, matches, rules, name) <==> Guarded(c', mapping, matches, rules, name)
    {
      assert AddedTo(c, c', added, name);
    }
  }

  // When nothing is pending, all rules there are do.
  lemma SettledGuards(c: Sync, mapping: map<string, string>, matches: Matcher, upstream: seq<string>, now: int)
    requires Converged(c, mapping, matches, upstream, now)
    ensures Guards(c, mapping, matches, upstream, Rules(c))
  {
    forall name | name in Normalize(upstream)
      ensures Guarded(c, mapping, matches, Rules(c), name)
    {
      InAdditions(c, mapping, matches, upstream, name);
    }
  }

  function Keeping(mapping: map<string, string>, matches: Matcher, upstream: seq<string>, rules: set<string>)
    : Sync -> bool
  {
    c => Guards(c, mapping, matches, upstream, rules)
  }

  lemma GuardsBefore(c: Sync, mapping: map<string, string>, matches: Matcher, upstream: seq<string>, now: int, n: nat,
                     rules: set<string>)
    requires var c' := Rounds(c, mapping, matches, upstream, now, n);
      NoCommaAdded(c', mapping, matches, upstream) && Guards(c', mapping, matches, upstream, rules)
    ensures Guards(c, mapping, matches, upstream, rules)
  {
    RoundsProgress(mapping, matches, upstream, now);
    forall s: Sync
      ensures var s' := Round(s, mapping, matches, upstream, now);
        NoCommaAdded(s, mapping, matches, upstream) && Guards(s', mapping, matches, upstream, rules) ==>
          Guards(s, mapping, matches, upstream, rules)
    {
      RoundGuards(s, mapping, matches, upstream, now, rules);
    }
    WasTrue(Step(mapping, matches, upstream, now), RuleCount(), AddsNoComma(mapping, matches, upstream),
            Settled(mapping, matches, upstream, now), Keeping(mapping, matches, upstream, rules), c, n);
  }

  lemma GuardsAfter(c: Sync, mapping: map<string, string>, matches: Matcher, upstream: seq<string>, now: int, n: nat,
                    rules: set<string>)
    requires Guards(c, mapping, matches, upstream, rules)
    ensures NoCommaAdded(Rounds(c, mapping, matches, upstream, now, n), mapping, matches, upstream)
  {
    forall s: Sync
      ensures Guards(s, mapping, matches, upstream, rules) ==>
        Guards(Round(s, mapping, matches, upstream, now), mapping, matches, upstream, rules)
    {
      RoundGuards(s, mapping, matches, upstream, now, rules);
    }
    StaysTrue(Step(mapping, matches, upstream, now), Keeping(mapping, matches, upstream, rules), c, n);
    GuardsAdditions(Rounds(c, mapping, matches, upstream, now, n), mapping, matches, upstream, rules);
  }

  // Some of the rules do: this can be seen from the channel, the redirects and the upstream list.
  ghost predicate CanSettle(c: Sync, mapping: map<string, string>, matches: Matcher, upstream: seq<string>) {
    exists rules :: Guards(c, mapping, matches, upstream, rules)
  }

  // Repeating the cycle reaches a list with nothing pending, and keeps it, once there were more rounds than rules,
  // exactly when some of the rules guard the list; and if they do not, no number of rounds reaches one.
  lemma SettlesExactlyWhen(c: Sync, mapping: map<string, string>, matches: Matcher, upstream: seq<string>, now: int,
                           n: nat)
    ensures var settled := Converged(Rounds(c, mapping, matches, upstream, now, n), mapping, matches, upstream, now);
      && (settled ==> CanSettle(c, mapping, matches, upstream))
      && (n > |Rules(c)| && CanSettle(c, mapping, matches, upstream) ==> settled)
  {
    var c' := Rounds(c, mapping, matches, upstream, now, n);
    if Converged(c', mapping, matches, upstream, now) {
      StaysConverged(c', mapping, matches, upstream, now);
      SettledGuards(c', mapping, matches, upstream, now);
      GuardsBefore(c, mapping, matches, upstream, now, n, Rules(c'));
    }
    if rules :| Guards(c, mapping, matches, upstream, rules) {
      GuardsAfter(c, mapping, matches, upstream, now, |Rules(c)|, rules);
      SettlesByThen(c, mapping, matches, upstream, now, n);
    }
  }

  // In particular when no upstream name holds a comma.
  lemma SettlesWithoutCommas(c: Sync, mapping: map<string, string>, matches: Matcher, upstream: seq<string>, now: int,
                             n: nat)
    requires n > |Rules(c)| && forall name :: name in Normalize(upstream) ==> !HasComma(name)
    ensures Converged(Rounds(c, mapping, matches, upstream, now, n), mapping, matches, upstream, now)
  {
    assert Guards(c, mapping, matches, upstream, {});
    SettlesExactlyWhen(c, mapping, matches, upstream, now, n);
  }

  // No number of rounds settles a list while a name with a comma is added.
  lemma NeverSettles(c: Sync, mapping: map<string, string>, matches: Matcher, upstream: seq<string>, now: int, n: nat)
    requires !NoCommaAdded(c, mapping, matches, upstream)
    ensures !Converged(Rounds(c, mapping, matches, upstream, now, n), mapping, matches, upstream, now)
  {
    RoundsProgress(mapping, matches, upstream, now);
    StaysUnclean(Step(mapping, matches, upstream, now), RuleCount(), AddsNoComma(mapping, matches, upstream),
                 Settled(mapping, matches, upstream, now), c, n);
  }

  // An empty channel and an upstream that offers the one name "a,b": no number of rounds settles it.
  lemma CommaExample(c: Sync, matches: Matcher, upstream: seq<string>, name: string, now: int, n: nat)
    requires name == "a,b"
    requires |c.models| == 0 && |c.ignored| == 0 && |upstream| == 1 && upstream[0] == name
    ensures !Converged(Rounds(c, map[], matches, upstream, now, n), map[], matches, upstream, now)
  {
    NormalizedAlready(upstream);
    NormalizedAlready(c.ignored);
    assert name in upstream && ',' in name;
    CommaFails(c, map[], matches, upstream, name);
    NeverSettles(c, map[], matches, upstream, now, n);
  }

  // An empty channel with one pattern, and an upstream that offers a name it hides and a name spelled like the
  // rule, such as "y" and "regex:^y$": the first round adds the one, drops the rule and leaves the other pending,
  // and every further number of rounds settles it.
  lemma PatternExample(c: Sync, matches: Matcher, upstream: seq<string>, rule: string, name: string, now: int, n: nat)
    requires Clean(rule) && Clean(name) && rule != name && !HasComma(rule) && !HasComma(name)
    requires Ignores(matches, rule, name) && !Ignores(matches, rule, rule)
    requires |c.models| == 0 && |c.ignored| == 1 && c.ignored[0] == rule
    requires |upstream| == 2 && upstream[0] == rule && upstream[1] == name
    ensures !Converged(Round(c, map[], matches, upstream, now), map[], matches, upstream, now)
    ensures n > 1 ==> Converged(Rounds(c, map[], matches, upstream, now, n), map[], matches, upstream, now)
  {
    OneName(c.ignored, rule);
    TwoNames(upstream, rule, name);
    NothingLocal(c.models);
    PatternSettles(c, map[], matches, upstream, rule, name, now, n);
  }

  lemma PatternSettles(c: Sync, mapping: map<string, string>, matches: Matcher, upstream: seq<string>,
                       rule: string, name: string, now: int, n: nat)
    requires Rules(c) == {rule} && |Rules(c)| == 1 && Ignores(matches, rule, name) && !Ignores(matches, rule, rule)
    requires rule in Normalize(upstream) && rule !in Local(c.models) && rule !in mapping.Values
    requires name in Normalize(upstream) && name !in Local(c.models) && name !in mapping.Values
    requires forall other :: other in Normalize(upstream) ==> !HasComma(other)
    ensures !Converged(Round(c, mapping, matches, upstream, now), mapping, matches, upstream, now)
    ensures n > 1 ==> Converged(Rounds(c, mapping, matches, upstream, now, n), mapping, matches, upstream, now)
  {
    PatternFails(c, mapping, matches, upstream, rule, name);
    RoundExactlyWhen(c, mapping, matches, upstream, now);
    if n > 1 {
      SettlesWithoutCommas(c, mapping, matches, upstream, now, n);
    }
  }

  lemma OneName(names: seq<string>, a: string)
    requires |names| == 1 && names[0] == a && Clean(a)
    ensures Elements(Normalize(names)) == {a} && |Elements(Normalize(names))| == 1
  {
    assert names[0] in names;
    NormalizedAlready(names);
  }

  lemma TwoNames(names: seq<string>, a: string, b: string)
    requires |names| == 2 && names[0] == a && names[1] == b && Clean(a) && Clean(b) && a != b
    ensures a in Normalize(names) && b in Normalize(names)
    ensures forall name :: name in Normalize(names) ==> name == a || name == b
  {
    assert names[0] in names && names[1] in names;
    NormalizedAlready(names);
  }

  lemma NothingLocal(models: string)
    requires |models| == 0
    ensures Local(models) == []
  {
    NormalizedAlready(ReadList(models, ','));
  }
}
