/**
 The models that a list of groups has in common (`groupMonitoringCommonModels` in
 controller/group_monitoring.go). One pass counts, per model, how many groups from the first on offer it; a
 model missed once can never catch up.
 */
module CommonModels {
  import opened Text

  // A group that is not listed offers nothing.
  function ModelsOf(available: map<string, seq<string>>, group: string): seq<string> {
    if group in available then available[group] else []
  }

  function CountOf(counts: map<string, nat>, name: string): nat {
    if name in counts then counts[name] else 0
  }

  // How many of the first n groups, from the first on without a gap, offer the model.
  function Lead(groups: seq<string>, available: map<string, seq<string>>, name: string, n: nat): (lead: nat)
    requires n <= |groups|
    ensures lead <= n
  {
    if n == 0 then 0
    else
      var before := Lead(groups, available, name, n - 1);
      if before == n - 1 && name in ModelsOf(available, groups[n - 1]) then n else before
  }

  lemma {:induction false} LeadIsAll(groups: seq<string>, available: map<string, seq<string>>, name: string, n: nat)
    requires n <= |groups|
    ensures Lead(groups, available, name, n) == n <==> forall i :: 0 <= i < n ==> name in ModelsOf(available, groups[i])
  {
    if n > 0 {
      LeadIsAll(groups, available, name, n - 1);
    }
  }

  ghost predicate LeadsAt(counts: map<string, nat>, groups: seq<string>, available: map<string, seq<string>>, n: nat)
    requires n <= |groups|
  {
    forall name :: CountOf(counts, name) == Lead(groups, available, name, n)
  }

  // One group: its models counted once each, and only those that were in every group before it.
  method CountGroup(groups: seq<string>, available: map<string, seq<string>>, index: nat, counts: map<string, nat>)
    returns (r: map<string, nat>)
    requires index < |groups| && LeadsAt(counts, groups, available, index)
    ensures LeadsAt(r, groups, available, index + 1)
  {
    r := counts;
    var models := ModelsOf(available, groups[index]);
    var seen: set<string> := {};
    for j := 0 to |models|
      invariant forall name :: name in seen <==> name in models[..j]
      invariant forall name ::
        CountOf(r, name) ==
        if name in seen && CountOf(counts, name) == index then index + 1 else CountOf(counts, name)
    {
      var name := models[j];
      assert models[..j + 1] == models[..j] + [name];
      if name in seen {
        continue;
      }
      seen := seen + {name};
      if CountOf(r, name) == index {
        r := r[name := CountOf(r, name) + 1];
      }
    }
    assert models[..|models|] == models;
  }

  method Collect(counts: map<string, nat>, total: nat) returns (names: seq<string>)
    ensures Ascending(names)
    ensures forall name :: name in names <==> name in counts && counts[name] == total
  {
    var full: set<string> := {};
    var pending := counts.Keys;
    while pending != {}
      invariant pending <= counts.Keys
      invariant forall name :: name in full <==> name in counts && name !in pending && counts[name] == total
      decreases pending
    {
      var name :| name in pending;
      if counts[name] == total {
        full := full + {name};
      }
      pending := pending - {name};
    }
    names := SortKeys(full);
  }

  // The sorted, duplicate-free intersection of the groups' models; groups and models may repeat.
  method Common(groups: seq<string>, available: map<string, seq<string>>) returns (names: seq<string>)
    ensures Ascending(names)
    ensures forall name :: name in names <==>
      |groups| > 0 && forall i :: 0 <= i < |groups| ==> name in ModelsOf(available, groups[i])
  {
    if |groups| == 0 {
      return [];
    }
    var counts: map<string, nat> := map[];
    for index := 0 to |groups|
      invariant LeadsAt(counts, groups, available, index)
    {
      counts := CountGroup(groups, available, index, counts);
    }
    names := Collect(counts, |groups|);
    forall name
      ensures name in counts && counts[name] == |groups| <==>
        forall i :: 0 <= i < |groups| ==> name in ModelsOf(available, groups[i])
    {
      LeadIsAll(groups, available, name, |groups|);
      assert CountOf(counts, name) == Lead(groups, available, name, |groups|);
    }
  }

  lemma SameLast(a: seq<string>, b: seq<string>)
    requires Ascending(a) && Ascending(b) && |a| > 0 && |b| > 0 && Elements(a) == Elements(b)
    ensures a[|a| - 1] == b[|b| - 1]
  {
    var x, y := a[|a| - 1], b[|b| - 1];
    assert x in Elements(a) && y in Elements(b);
    var i :| 0 <= i < |b| && b[i] == x;
    var j :| 0 <= j < |a| && a[j] == y;
    if x != y {
      LessAsymmetric(x, y);
    }
  }

  lemma FrontElements(a: seq<string>)
    requires Ascending(a) && |a| > 0
    ensures Elements(a[..|a| - 1]) == Elements(a) - {a[|a| - 1]}
  {
    var front, last := a[..|a| - 1], a[|a| - 1];
    assert a == front + [last];
    forall i | 0 <= i < |front| ensures front[i] != last {
      if front[i] == last {
        LessAsymmetric(front[i], last);
      }
    }
  }

  lemma NoneIn(a: seq<string>)
    ensures Elements(a) == {} ==> |a| == 0
  {
    assert |a| > 0 ==> a[0] in Elements(a);
  }

  // The answer does not depend on the order in which the map is walked, and no name is in it twice.
  lemma {:induction false} AscendingIsUnique(a: seq<string>, b: seq<string>)
    requires Ascending(a) && Ascending(b) && Elements(a) == Elements(b)
    ensures a == b && NoDup(a)
  {
    NoneIn(a);
    NoneIn(b);
    if |a| > 0 && |b| > 0 {
      SameLast(a, b);
      FrontElements(a);
      FrontElements(b);
      AscendingIsUnique(a[..|a| - 1], b[..|b| - 1]);
      assert forall i :: 0 <= i < |a| - 1 ==> a[i] in Elements(a[..|a| - 1]);
      assert a == a[..|a| - 1] + [a[|a| - 1]] && b == b[..|b| - 1] + [b[|b| - 1]];
    }
  }
}
