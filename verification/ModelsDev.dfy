/**
 Selecting one price per model from the providers of models.dev (`buildModelsDevCandidate`,
 `shouldReplaceModelsDevCandidate` and the selection loop of `convertModelsDevToRatioData` in
 controller/ratio_sync.go). Two prices count as equal when they differ by less than 1e-9, which is not
 transitive, so what a chain of replacements can drift to is the question. Prices are exact reals.
 */
module ModelsDev {
  import opened Basics
  import opened Text

  datatype Cost = Cost(input: Option<real>, output: Option<real>, cacheRead: Option<real>)

  datatype Candidate = Candidate(provider: string, input: real, output: Option<real>, cacheRead: Option<real>)

  // A price that can be turned into a ratio: not negative, and not free on input but charged on output.
  function BuildCandidate(provider: string, cost: Cost): (r: Option<Candidate>)
    ensures r.Some? <==>
      && cost.input.Some? && cost.input.value >= 0.0
      && (cost.output.Some? ==> cost.output.value >= 0.0)
      && (cost.input.value == 0.0 && cost.output.Some? ==> cost.output.value == 0.0)
    ensures r.Some? ==>
      && r.value.provider == provider && r.value.input == cost.input.value && r.value.output == cost.output
      && (cost.cacheRead.Some? && cost.cacheRead.value >= 0.0 ==> r.value.cacheRead == cost.cacheRead)
      && (cost.cacheRead.None? || cost.cacheRead.value < 0.0 ==> r.value.cacheRead.None?)
  {
    if cost.input.None? || cost.input.value < 0.0 then None
    else if cost.output.Some? && cost.output.value < 0.0 then None
    else if cost.input.value == 0.0 && cost.output.Some? && cost.output.value > 0.0 then None
    else
      var cacheRead := if cost.cacheRead.Some? && cost.cacheRead.value >= 0.0 then cost.cacheRead else None;
      Some(Candidate(provider, cost.input.value, cost.output, cacheRead))
  }

  predicate ShouldReplace(current: Candidate, next: Candidate) {
    var currentNonZero, nextNonZero := current.input > 0.0, next.input > 0.0;
    if currentNonZero != nextNonZero then nextNonZero
    else if nextNonZero && !NearlyEqual(next.input, current.input) then next.input < current.input
    else Less(next.provider, current.provider)
  }

  // One more candidate for a model, if it is one.
  function Next(current: Option<Candidate>, next: Option<Candidate>): Option<Candidate> {
    if next.None? then current
    else if current.None? || ShouldReplace(current.value, next.value) then next
    else current
  }

  // The loop over providers and models

  type Catalog = map<string, map<string, Cost>>

  function CandidateOf(data: Catalog, provider: string, model: string): Option<Candidate> {
    if provider in data && model in data[provider] then BuildCandidate(provider, data[provider][model]) else None
  }

  // What is kept for a model after the first n providers.
  function Kept(data: Catalog, providers: seq<string>, model: string, n: nat): Option<Candidate>
    requires n <= |providers|
  {
    if n == 0 then None else Next(Kept(data, providers, model, n - 1), CandidateOf(data, providers[n - 1], model))
  }

  function Lookup(selected: map<string, Candidate>, model: string): Option<Candidate> {
    if model in selected then Some(selected[model]) else None
  }

  method SelectFrom(data: Catalog, provider: string, selected: map<string, Candidate>)
    returns (r: map<string, Candidate>)
    requires provider in data
    ensures forall model :: Lookup(r, model) == Next(Lookup(selected, model), CandidateOf(data, provider, model))
  {
    r := selected;
    var models := SortKeys(data[provider].Keys);
    for k := 0 to |models|
      invariant forall model :: model in models[..k] ==>
        Lookup(r, model) == Next(Lookup(selected, model), CandidateOf(data, provider, model))
      invariant forall model :: model !in models[..k] ==> Lookup(r, model) == Lookup(selected, model)
    {
      var model := models[k];
      assert models[..k + 1] == models[..k] + [model];
      assert model !in models[..k] by {
        AscendingDistinct(models, k);
      }
      var candidate := BuildCandidate(provider, data[provider][model]);
      if candidate.Some? && (model !in r || ShouldReplace(r[model], candidate.value)) {
        r := r[model := candidate.value];
      }
    }
    assert models[..|models|] == models;
  }

  lemma AscendingDistinct(names: seq<string>, k: nat)
    requires Ascending(names) && k < |names|
    ensures names[k] !in names[..k]
  {
    forall i | 0 <= i < k ensures names[i] != names[k] {
      if names[i] == names[k] {
        LessAsymmetric(names[i], names[k]);
      }
    }
  }

  // What is kept

  predicate Valid(data: Catalog, provider: string, model: string, c: Candidate) {
    CandidateOf(data, provider, model) == Some(c)
  }

  // A valid candidate of one of the first n providers: free only if all of them are, and otherwise dearer than
  // none of those that are not free by EPSILON or more.
  ghost predicate Cheapest(data: Catalog, providers: seq<string>, model: string, n: nat, kept: Candidate)
    requires n <= |providers|
  {
    && (exists i :: 0 <= i < n && Valid(data, providers[i], model, kept))
    && (kept.input == 0.0 ==> forall i, c :: 0 <= i < n && Valid(data, providers[i], model, c) ==> c.input == 0.0)
    && (kept.input > 0.0 ==>
          forall i, c :: 0 <= i < n && Valid(data, providers[i], model, c) && c.input > 0.0 ==>
            kept.input - c.input < EPSILON)
  }

  // Going through the providers in ascending order, every model with a valid candidate keeps such a one.
  lemma {:induction false} KeptIsCheapest(data: Catalog, providers: seq<string>, model: string, n: nat)
    requires Ascending(providers) && n <= |providers|
    ensures var kept := Kept(data, providers, model, n);
      && (kept.Some? ==> Cheapest(data, providers, model, n, kept.value))
      && (kept.None? ==> forall i :: 0 <= i < n ==> CandidateOf(data, providers[i], model).None?)
  {
    if n > 0 {
      KeptIsCheapest(data, providers, model, n - 1);
      var before, next := Kept(data, providers, model, n - 1), CandidateOf(data, providers[n - 1], model);
      if before.Some? && next.Some? {
        CheapestNext(data, providers, model, n, before.value, next.value);
      }
    }
  }

  // A tie never replaces: the next provider comes later in the order.
  lemma NoTieReplaces(data: Catalog, providers: seq<string>, model: string, n: nat, current: Candidate, next: Candidate)
    requires Ascending(providers) && 0 < n <= |providers|
    requires Cheapest(data, providers, model, n - 1, current) && Valid(data, providers[n - 1], model, next)
    ensures !Less(next.provider, current.provider)
  {
    var i :| 0 <= i < n - 1 && Valid(data, providers[i], model, current);
    assert Less(providers[i], providers[n - 1]);
    LessAsymmetric(providers[i], providers[n - 1]);
  }

  lemma CheapestNext(data: Catalog, providers: seq<string>, model: string, n: nat, current: Candidate, next: Candidate)
    requires Ascending(providers) && 0 < n <= |providers|
    requires Cheapest(data, providers, model, n - 1, current) && Valid(data, providers[n - 1], model, next)
    ensures Cheapest(data, providers, model, n, if ShouldReplace(current, next) then next else current)
  {
    NoTieReplaces(data, providers, model, n, current, next);
    forall i, c | 0 <= i < n && Valid(data, providers[i], model, c)
      ensures c.input >= 0.0 && (i == n - 1 ==> c == next)
    {
    }
  }

  // A candidate of provider k, and no provider before it has one of the same price.
  ghost predicate FirstAt(data: Catalog, providers: seq<string>, model: string, k: int, kept: Candidate) {
    && 0 <= k < |providers| && Valid(data, providers[k], model, kept)
    && forall i, c :: 0 <= i < k && Valid(data, providers[i], model, c) ==> c.input != kept.input
  }

  // Among candidates of the same price the first provider's is kept.
  lemma {:induction false} KeptIsFirst(data: Catalog, providers: seq<string>, model: string, n: nat)
    requires Ascending(providers) && n <= |providers|
    ensures var kept := Kept(data, providers, model, n);
      kept.Some? ==> exists k :: 0 <= k < n && FirstAt(data, providers, model, k, kept.value)
  {
    if n > 0 {
      KeptIsFirst(data, providers, model, n - 1);
      KeptIsCheapest(data, providers, model, n - 1);
      var before, next := Kept(data, providers, model, n - 1), CandidateOf(data, providers[n - 1], model);
      if before.Some? && next.Some? {
        NoTieReplaces(data, providers, model, n, before.value, next.value);
        if ShouldReplace(before.value, next.value) {
          assert FirstAt(data, providers, model, n - 1, next.value);
        }
      } else if next.Some? {
        assert FirstAt(data, providers, model, n - 1, next.value);
      }
    }
  }

  // The selection: per model the cheapest candidate that is not free, up to EPSILON, and a free one only if no
  // other is valid.
  method Select(data: Catalog) returns (providers: seq<string>, selected: map<string, Candidate>)
    ensures Ascending(providers) && forall provider :: provider in providers <==> provider in data
    ensures forall model :: model in selected ==> Cheapest(data, providers, model, |providers|, selected[model])
    ensures forall model :: model in selected ==> exists k :: FirstAt(data, providers, model, k, selected[model])
    ensures forall model :: model !in selected ==>
      forall i :: 0 <= i < |providers| ==> CandidateOf(data, providers[i], model).None?
  {
    providers := SortKeys(data.Keys);
    selected := map[];
    for i := 0 to |providers|
      invariant forall model :: Lookup(selected, model) == Kept(data, providers, model, i)
    {
      assert providers[i] in providers;
      selected := SelectFrom(data, providers[i], selected);
    }
    forall model
      ensures model in selected ==> Cheapest(data, providers, model, |providers|, selected[model])
      ensures model in selected ==> exists k :: FirstAt(data, providers, model, k, selected[model])
      ensures model !in selected ==> forall i :: 0 <= i < |providers| ==> CandidateOf(data, providers[i], model).None?
    {
      KeptIsCheapest(data, providers, model, |providers|);
      KeptIsFirst(data, providers, model, |providers|);
      assert Lookup(selected, model) == Kept(data, providers, model, |providers|);
    }
  }

  // Against the order a chain of ties drifts away from the cheapest price.
  lemma UnsortedDrifts()
    ensures var a := Candidate("a", 1.0000000012, None, None);
      var b := Candidate("b", 1.0000000006, None, None);
      var c := Candidate("c", 1.0, None, None);
      && Next(Next(Next(None, Some(c)), Some(b)), Some(a)) == Some(a)
      && a.input - c.input >= EPSILON
      && Next(Next(Next(None, Some(a)), Some(b)), Some(c)) == Some(c)
  {
  }
}
