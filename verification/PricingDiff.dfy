/**
 The pricing comparison (`buildDifferences`, `valuesEqual` and `nearlyEqual` in controller/ratio_sync.go). Local
 prices are compared, model by model and field by field, with what several upstream channels report; equal
 values are replaced by the marker "same", and two pruning passes drop the channels that differ nowhere and
 the entries with nothing left to show. Numbers are exact reals.
 */
module PricingDiff {
  import opened Basics

  datatype Field =
    | ModelRatio | CompletionRatio | CacheRatio | CreateCacheRatio | ImageRatio | AudioRatio | AudioCompletionRatio
    | ModelPrice | BillingMode | BillingExpr

  const FIELDS: seq<Field> := [
    ModelRatio, CompletionRatio, CacheRatio, CreateCacheRatio, ImageRatio, AudioRatio, AudioCompletionRatio,
    ModelPrice, BillingMode, BillingExpr]

  datatype Value = Null | Num(num: real) | Whole(whole: int) | Str(text: string) | Flag(flag: bool)

  const SAME := Str("same")

  type Data = map<Field, map<string, Value>>

  datatype Channel = Channel(name: string, data: Data)

  datatype Item = Item(current: Value, upstreams: map<string, Value>, confidence: map<string, bool>)

  type Differences = map<string, map<Field, Item>>

  // Values

  predicate ValuesEqual(a: Value, b: Value) {
    if a.Num? && b.Num? then NearlyEqual(a.num, b.num) else a == b
  }

  function Normalized(field: Field, value: Value): Value {
    if value.Whole? && !field.BillingMode? && !field.BillingExpr? then Num(value.whole as real) else value
  }

  function Stored(data: Data, field: Field, model: string): Option<Value> {
    if field in data && model in data[field] then Some(Normalized(field, data[field][model])) else None
  }

  // An absent local value and a null one are the same.
  function LocalValue(data: Data, field: Field, model: string): Value {
    var v := Stored(data, field, model);
    if v.Some? then v.value else Null
  }

  function AsReal(v: Value): Option<real> {
    if v.Num? then Some(v.num) else if v.Whole? then Some(v.whole as real) else None
  }

  // A channel that reports the defaults 37.5 and 1 for a model is not to be trusted on it.
  predicate Trusted(data: Data, model: string) {
    !(ModelRatio in data && model in data[ModelRatio] && CompletionRatio in data && model in data[CompletionRatio] &&
      var ratio, completion := AsReal(data[ModelRatio][model]), AsReal(data[CompletionRatio][model]);
      ratio.Some? && completion.Some? && NearlyEqual(ratio.value, 37.5) && NearlyEqual(completion.value, 1.0))
  }

  // What an entry shows for a channel: the value where it disagrees, the marker where it agrees, and nothing
  // where the channel is silent but there is a local value.
  function Cell(local: Value, remote: Option<Value>): Value {
    if remote.None? then (if local.Null? then SAME else Null)
    else if !local.Null? && !ValuesEqual(local, remote.value) then remote.value
    else if ValuesEqual(local, remote.value) then SAME
    else remote.value
  }

  function CellOf(localData: Data, channel: Channel, field: Field, model: string): Value {
    Cell(LocalValue(localData, field, model), Stored(channel.data, field, model))
  }

  // An entry before pruning

  function Upstreams(localData: Data, channels: seq<Channel>, field: Field, model: string, n: nat): map<string, Value>
    requires n <= |channels|
  {
    if n == 0 then map[]
    else
      var last := channels[n - 1];
      Upstreams(localData, channels, field, model, n - 1)[last.name := CellOf(localData, last, field, model)]
  }

  function Confidences(channels: seq<Channel>, model: string, n: nat): map<string, bool>
    requires n <= |channels|
  {
    if n == 0 then map[]
    else Confidences(channels, model, n - 1)[channels[n - 1].name := Trusted(channels[n - 1].data, model)]
  }

  predicate Reports(channel: Channel, field: Field, model: string) {
    Stored(channel.data, field, model).Some?
  }

  predicate Differs(localData: Data, channel: Channel, field: Field, model: string) {
    Reports(channel, field, model) &&
    !ValuesEqual(LocalValue(localData, field, model), Stored(channel.data, field, model).value)
  }

  predicate AnyReports(channels: seq<Channel>, field: Field, model: string, n: nat)
    requires n <= |channels|
  {
    n > 0 && (AnyReports(channels, field, model, n - 1) || Reports(channels[n - 1], field, model))
  }

  predicate AnyDiffers(localData: Data, channels: seq<Channel>, field: Field, model: string, n: nat)
    requires n <= |channels|
  {
    n > 0 && (AnyDiffers(localData, channels, field, model, n - 1) || Differs(localData, channels[n - 1], field, model))
  }

  predicate Included(localData: Data, channels: seq<Channel>, field: Field, model: string) {
    if LocalValue(localData, field, model).Null? then AnyReports(channels, field, model, |channels|)
    else AnyDiffers(localData, channels, field, model, |channels|)
  }

  function ItemOf(localData: Data, channels: seq<Channel>, field: Field, model: string): Item {
    Item(LocalValue(localData, field, model), Upstreams(localData, channels, field, model, |channels|),
         Confidences(channels, model, |channels|))
  }

  // One channel's turn.
  method CompareCell(localData: Data, channel: Channel, field: Field, model: string)
    returns (value: Value, reports: bool, differs: bool)
    ensures value == CellOf(localData, channel, field, model)
    ensures reports == Reports(channel, field, model)
    ensures !LocalValue(localData, field, model).Null? ==> differs == Differs(localData, channel, field, model)
  {
    var local, stored := LocalValue(localData, field, model), Stored(channel.data, field, model);
    value, reports, differs := Null, false, false;
    if stored.Some? {
      value, reports := stored.value, true;
      if !local.Null? && !ValuesEqual(local, value) {
        differs := true;
      } else if ValuesEqual(local, value) {
        value := SAME;
      }
    }
    if value.Null? && local.Null? {
      value := SAME;
    }
    if local.Null? && !value.Null? && value != SAME {
      differs := true;
    }
  }

  method CheckConfidence(channels: seq<Channel>, model: string) returns (confidence: map<string, bool>)
    ensures confidence == Confidences(channels, model, |channels|)
  {
    confidence := map[];
    for i := 0 to |channels|
      invariant confidence == Confidences(channels, model, i)
    {
      confidence := confidence[channels[i].name := Trusted(channels[i].data, model)];
    }
  }

  method CompareChannels(localData: Data, channels: seq<Channel>, field: Field, model: string)
    returns (upstreams: map<string, Value>, hasUpstream: bool, hasDifference: bool)
    ensures upstreams == Upstreams(localData, channels, field, model, |channels|)
    ensures hasUpstream == AnyReports(channels, field, model, |channels|)
    ensures !LocalValue(localData, field, model).Null? ==>
      hasDifference == AnyDiffers(localData, channels, field, model, |channels|)
  {
    upstreams, hasUpstream, hasDifference := map[], false, false;
    for i := 0 to |channels|
      invariant upstreams == Upstreams(localData, channels, field, model, i)
      invariant hasUpstream == AnyReports(channels, field, model, i)
      invariant !LocalValue(localData, field, model).Null? ==>
        hasDifference == AnyDiffers(localData, channels, field, model, i)
    {
      var value, reports, differs := CompareCell(localData, channels[i], field, model);
      upstreams := upstreams[channels[i].name := value];
      hasUpstream := hasUpstream || reports;
      hasDifference := hasDifference || differs;
    }
  }

  method Compare(localData: Data, channels: seq<Channel>, field: Field, model: string)
    returns (wanted: bool, item: Item)
    ensures wanted <==> Included(localData, channels, field, model)
    ensures item == ItemOf(localData, channels, field, model)
  {
    var local := LocalValue(localData, field, model);
    var confidence := CheckConfidence(channels, model);
    var upstreams, hasUpstream, hasDifference := CompareChannels(localData, channels, field, model);
    wanted := if !local.Null? then hasDifference else hasUpstream;
    item := Item(local, upstreams, confidence);
  }

  // The entries of a model, and of all models

  ghost predicate RatiosOf(ratios: map<Field, Item>, localData: Data, channels: seq<Channel>, model: string, n: nat)
    requires n <= |FIELDS|
  {
    && (forall f :: f in ratios <==> f in FIELDS[..n] && Included(localData, channels, f, model))
    && forall f :: f in ratios ==> ratios[f] == ItemOf(localData, channels, f, model)
  }

  // Exactly the entries to include.
  ghost predicate ModelEntries(ratios: map<Field, Item>, localData: Data, channels: seq<Channel>, model: string) {
    && (forall f :: f in ratios <==> Included(localData, channels, f, model))
    && forall f :: f in ratios ==> ratios[f] == ItemOf(localData, channels, f, model)
  }

  method CompareModel(localData: Data, channels: seq<Channel>, model: string) returns (ratios: map<Field, Item>)
    ensures ModelEntries(ratios, localData, channels, model)
  {
    ratios := map[];
    for i := 0 to |FIELDS|
      invariant RatiosOf(ratios, localData, channels, model, i)
    {
      assert FIELDS[..i + 1] == FIELDS[..i] + [FIELDS[i]];
      var wanted, item := Compare(localData, channels, FIELDS[i], model);
      if wanted {
        ratios := ratios[FIELDS[i] := item];
      }
    }
    AllFields();
    assert FIELDS[..|FIELDS|] == FIELDS;
  }

  lemma AllFields()
    ensures forall f: Field :: f in FIELDS
  {
    forall f: Field ensures f in FIELDS {
      match f
      case ModelRatio => assert FIELDS[0] == f;
      case CompletionRatio => assert FIELDS[1] == f;
      case CacheRatio => assert FIELDS[2] == f;
      case CreateCacheRatio => assert FIELDS[3] == f;
      case ImageRatio => assert FIELDS[4] == f;
      case AudioRatio => assert FIELDS[5] == f;
      case AudioCompletionRatio => assert FIELDS[6] == f;
      case ModelPrice => assert FIELDS[7] == f;
      case BillingMode => assert FIELDS[8] == f;
      case BillingExpr => assert FIELDS[9] == f;
    }
  }

  predicate Mentions(data: Data, model: string) {
    exists field :: field in data && model in data[field]
  }

  // Some list has a value for the model.
  predicate Known(localData: Data, channels: seq<Channel>, model: string) {
    Mentions(localData, model) || exists i :: 0 <= i < |channels| && Mentions(channels[i].data, model)
  }

  method ModelsIn(data: Data) returns (models: set<string>)
    ensures forall model :: model in models <==> Mentions(data, model)
  {
    models := {};
    for i := 0 to |FIELDS|
      invariant forall model :: model in models <==>
        exists field :: field in FIELDS[..i] && field in data && model in data[field]
    {
      assert FIELDS[..i + 1] == FIELDS[..i] + [FIELDS[i]];
      if FIELDS[i] in data {
        models := models + data[FIELDS[i]].Keys;
      }
    }
    AllFields();
    assert FIELDS[..|FIELDS|] == FIELDS;
  }

  method AllModels(localData: Data, channels: seq<Channel>) returns (models: set<string>)
    ensures forall model :: model in models <==> Known(localData, channels, model)
  {
    models := ModelsIn(localData);
    for i := 0 to |channels|
      invariant forall model :: model in models <==>
        Mentions(localData, model) || exists j :: 0 <= j < i && Mentions(channels[j].data, model)
    {
      var more := ModelsIn(channels[i].data);
      models := models + more;
    }
  }

  lemma {:induction false} UnknownReports(channels: seq<Channel>, field: Field, model: string, n: nat)
    requires n <= |channels| && forall i :: 0 <= i < |channels| ==> !Mentions(channels[i].data, model)
    ensures !AnyReports(channels, field, model, n)
  {
    if n > 0 {
      UnknownReports(channels, field, model, n - 1);
    }
  }

  lemma UnknownExcluded(localData: Data, channels: seq<Channel>, field: Field, model: string)
    requires !Known(localData, channels, model)
    ensures !Included(localData, channels, field, model)
  {
    UnknownReports(channels, field, model, |channels|);
  }

  function RatiosAt(d: Differences, model: string): map<Field, Item> {
    if model in d then d[model] else map[]
  }

  // No model is listed without an entry.
  predicate NoBareModel(d: Differences) {
    forall model :: model in d ==> d[model] != map[]
  }

  lemma UnknownModel(localData: Data, channels: seq<Channel>, model: string)
    requires !Known(localData, channels, model)
    ensures ModelEntries(map[], localData, channels, model)
  {
    forall f ensures !Included(localData, channels, f, model) {
      UnknownExcluded(localData, channels, f, model);
    }
  }

  // The model's own map is made when its first entry is.
  function PutRatios(d: Differences, model: string, ratios: map<Field, Item>): (r: Differences)
    requires model !in d && NoBareModel(d)
    ensures RatiosAt(r, model) == ratios && NoBareModel(r)
    ensures forall other :: other != model ==> RatiosAt(r, other) == RatiosAt(d, other)
    ensures forall other :: other in r ==> other in d || other == model
  {
    if ratios != map[] then d[model := ratios] else d
  }

  method CompareAll(localData: Data, channels: seq<Channel>) returns (d: Differences)
    ensures forall model :: ModelEntries(RatiosAt(d, model), localData, channels, model)
    ensures NoBareModel(d)
  {
    var models := AllModels(localData, channels);
    d := map[];
    var pending := models;
    while pending != {}
      invariant pending <= models && NoBareModel(d)
      invariant forall model :: model in d ==> model in models - pending
      invariant forall model :: model in models - pending ==>
        ModelEntries(RatiosAt(d, model), localData, channels, model)
      decreases pending
    {
      var model :| model in pending;
      var ratios := CompareModel(localData, channels, model);
      d := PutRatios(d, model, ratios);
      pending := pending - {model};
    }
    forall model ensures ModelEntries(RatiosAt(d, model), localData, channels, model) {
      if model !in models {
        UnknownModel(localData, channels, model);
      }
    }
  }

  // Pruning

  predicate Visible(v: Value) {
    !v.Null? && v != SAME
  }

  // The channels that an item shows a difference for.
  method VisibleIn(item: Item) returns (names: set<string>)
    ensures forall name :: name in names <==> name in item.upstreams && Visible(item.upstreams[name])
  {
    names := {};
    var pending := item.upstreams.Keys;
    while pending != {}
      invariant pending <= item.upstreams.Keys
      invariant forall name :: name in names <==>
        name in item.upstreams && name !in pending && Visible(item.upstreams[name])
      decreases pending
    {
      var name :| name in pending;
      if !item.upstreams[name].Null? && item.upstreams[name] != SAME {
        names := names + {name};
      }
      pending := pending - {name};
    }
  }

  predicate VisibleAt(ratios: map<Field, Item>, field: Field, name: string) {
    field in ratios && name in ratios[field].upstreams && Visible(ratios[field].upstreams[name])
  }

  predicate Shows(ratios: map<Field, Item>, name: string) {
    exists field :: VisibleAt(ratios, field, name)
  }

  method VisibleOf(ratios: map<Field, Item>) returns (names: set<string>)
    ensures forall name :: name in names <==> Shows(ratios, name)
  {
    names := {};
    var pending := ratios.Keys;
    while pending != {}
      invariant pending <= ratios.Keys
      invariant forall name :: name in names <==> exists field :: field !in pending && VisibleAt(ratios, field, name)
      decreases pending
    {
      var field :| field in pending;
      var more := VisibleIn(ratios[field]);
      names := names + more;
      pending := pending - {field};
    }
  }

  method DiffChannels(d: Differences) returns (names: set<string>)
    ensures forall name :: name in names <==> exists model :: Shows(RatiosAt(d, model), name)
  {
    names := {};
    var pending := d.Keys;
    while pending != {}
      invariant pending <= d.Keys
      invariant forall name :: name in names <==> exists model :: model !in pending && Shows(RatiosAt(d, model), name)
      decreases pending
    {
      var model :| model in pending;
      assert RatiosAt(d, model) == d[model];
      var more := VisibleOf(d[model]);
      names := names + more;
      pending := pending - {model};
    }
  }

  function Restrict(item: Item, keep: set<string>): Item {
    Item(item.current, map name | name in item.upstreams && name in keep :: item.upstreams[name],
         map name | name in item.confidence && name in keep :: item.confidence[name])
  }

  method PruneItem(item: Item, keep: set<string>) returns (r: Item, empty: bool)
    requires item.upstreams.Keys == item.confidence.Keys
    ensures r == Restrict(item, keep)
    ensures empty <==> !Left(item, keep)
  {
    var upstreams, confidence := item.upstreams, item.confidence;
    var pending := item.upstreams.Keys;
    while pending != {}
      invariant pending <= item.upstreams.Keys
      invariant upstreams ==
        map name | name in item.upstreams && (name in pending || name in keep) :: item.upstreams[name]
      invariant confidence ==
        map name | name in item.confidence && (name in pending || name in keep) :: item.confidence[name]
      decreases pending
    {
      var name :| name in pending;
      if name !in keep {
        upstreams := upstreams - {name};
        confidence := confidence - {name};
      }
      pending := pending - {name};
    }
    r := Item(item.current, upstreams, confidence);
    empty := AllSame(upstreams);
    LeftIs(item, keep);
  }

  lemma LeftIs(item: Item, keep: set<string>)
    ensures var kept := Restrict(item, keep).upstreams;
      Left(item, keep) <==> !(forall name :: name in kept ==> kept[name] == SAME)
  {
    var kept := Restrict(item, keep).upstreams;
    if Left(item, keep) {
      var name :| name in item.upstreams && name in keep && item.upstreams[name] != SAME;
      assert name in kept && kept[name] != SAME;
    }
  }

  method AllSame(upstreams: map<string, Value>) returns (same: bool)
    ensures same <==> forall name :: name in upstreams ==> upstreams[name] == SAME
  {
    var pending := upstreams.Keys;
    same := true;
    while pending != {}
      invariant pending <= upstreams.Keys
      invariant forall name :: name in upstreams && name !in pending ==> upstreams[name] == SAME
      decreases pending
    {
      var name :| name in pending;
      if upstreams[name] != SAME {
        return false;
      }
      pending := pending - {name};
    }
  }

  // Something to show is left of an item.
  predicate Left(item: Item, keep: set<string>) {
    exists name :: name in item.upstreams && name in keep && item.upstreams[name] != SAME
  }

  ghost predicate Paired(ratios: map<Field, Item>) {
    forall f :: f in ratios ==> ratios[f].upstreams.Keys == ratios[f].confidence.Keys
  }

  ghost predicate Pruned(r: map<Field, Item>, ratios: map<Field, Item>, keep: set<string>) {
    && (forall f :: f in r <==> f in ratios && Left(ratios[f], keep))
    && forall f :: f in r ==> r[f] == Restrict(ratios[f], keep)
  }

  method PruneModel(ratios: map<Field, Item>, keep: set<string>) returns (r: map<Field, Item>)
    requires Paired(ratios)
    ensures Pruned(r, ratios, keep)
  {
    r := ratios;
    var pending := ratios.Keys;
    while pending != {}
      invariant pending <= ratios.Keys && pending <= r.Keys
      invariant forall f :: f in r <==> f in ratios && (f in pending || Left(ratios[f], keep))
      invariant forall f :: f in r ==> r[f] == if f in pending then ratios[f] else Restrict(ratios[f], keep)
      decreases pending
    {
      var field :| field in pending;
      var item, empty := PruneItem(ratios[field], keep);
      r := if empty then r - {field} else r[field := item];
      pending := pending - {field};
    }
  }

  method Prune(d: Differences, keep: set<string>) returns (r: Differences)
    requires forall model :: Paired(RatiosAt(d, model))
    ensures forall model :: Pruned(RatiosAt(r, model), RatiosAt(d, model), keep)
    ensures NoBareModel(r)
  {
    r := map[];
    var pending := d.Keys;
    while pending != {}
      invariant pending <= d.Keys && NoBareModel(r)
      invariant forall model :: model in r ==> model in d && model !in pending
      invariant forall model :: model !in pending ==> Pruned(RatiosAt(r, model), RatiosAt(d, model), keep)
      decreases pending
    {
      var model :| model in pending;
      var ratios := PruneModel(RatiosAt(d, model), keep);
      r := PutRatios(r, model, ratios);
      pending := pending - {model};
    }
  }

  // The whole pass

  lemma {:induction false} SameChannels(localData: Data, channels: seq<Channel>, field: Field, model: string, n: nat)
    requires n <= |channels|
    ensures Upstreams(localData, channels, field, model, n).Keys == Confidences(channels, model, n).Keys
  {
    if n > 0 {
      SameChannels(localData, channels, field, model, n - 1);
    }
  }

  // A channel name that some included entry shows a difference for.
  ghost predicate ShownSomewhere(localData: Data, channels: seq<Channel>, name: string) {
    exists model, field :: ShownAt(localData, channels, model, field, name)
  }

  predicate ShownAt(localData: Data, channels: seq<Channel>, model: string, field: Field, name: string) {
    var upstreams := Upstreams(localData, channels, field, model, |channels|);
    Included(localData, channels, field, model) && name in upstreams && Visible(upstreams[name])
  }

  ghost predicate ShownNames(keep: set<string>, localData: Data, channels: seq<Channel>) {
    forall name :: name in keep <==> ShownSomewhere(localData, channels, name)
  }

  method BuildDifferences(localData: Data, channels: seq<Channel>) returns (r: Differences, ghost keep: set<string>)
    ensures ShownNames(keep, localData, channels) && NoBareModel(r)
    ensures forall model :: ModelPruned(RatiosAt(r, model), localData, channels, model, keep)
    ensures Distinct(channels) ==>
      forall model, field :: field in RatiosAt(r, model) <==> Survives(localData, channels, field, model)
    ensures Distinct(channels) && Plain(channels) ==>
      forall model, field :: field in RatiosAt(r, model) <==>
        exists i :: 0 <= i < |channels| && Disagrees(localData, channels[i], field, model)
  {
    var d := CompareAll(localData, channels);
    var names := DiffChannels(d);
    keep := names;
    forall name ensures name in names <==> ShownSomewhere(localData, channels, name) {
      ShownIs(d, localData, channels, name);
    }
    forall model ensures Paired(RatiosAt(d, model)) {
      PairedIs(RatiosAt(d, model), localData, channels, model);
    }
    r := Prune(d, names);
    forall model ensures ModelPruned(RatiosAt(r, model), localData, channels, model, keep) {
      PrunedIs(RatiosAt(r, model), RatiosAt(d, model), localData, channels, model, keep);
    }
    if Distinct(channels) {
      forall model, field
        ensures field in RatiosAt(r, model) <==> Survives(localData, channels, field, model)
      {
        SurvivesExactlyWhen(RatiosAt(r, model), localData, channels, model, keep, field);
      }
    }
    if Distinct(channels) && Plain(channels) {
      forall model, field
        ensures field in RatiosAt(r, model) <==>
          exists i :: 0 <= i < |channels| && Disagrees(localData, channels[i], field, model)
      {
        PlainSurvives(RatiosAt(r, model), localData, channels, model, keep, field);
      }
    }
  }

  lemma ShownIs(d: Differences, localData: Data, channels: seq<Channel>, name: string)
    requires forall model :: ModelEntries(RatiosAt(d, model), localData, channels, model)
    ensures (exists model :: Shows(RatiosAt(d, model), name)) <==> ShownSomewhere(localData, channels, name)
  {
    forall model, field
      ensures VisibleAt(RatiosAt(d, model), field, name) <==> ShownAt(localData, channels, model, field, name)
    {
      assert ModelEntries(RatiosAt(d, model), localData, channels, model);
    }
    if ShownSomewhere(localData, channels, name) {
      var model, field :| ShownAt(localData, channels, model, field, name);
      assert VisibleAt(RatiosAt(d, model), field, name);
      assert Shows(RatiosAt(d, model), name);
    }
    if exists model :: Shows(RatiosAt(d, model), name) {
      var model :| Shows(RatiosAt(d, model), name);
      var field :| VisibleAt(RatiosAt(d, model), field, name);
      assert ShownAt(localData, channels, model, field, name);
    }
  }

  lemma PairedIs(ratios: map<Field, Item>, localData: Data, channels: seq<Channel>, model: string)
    requires ModelEntries(ratios, localData, channels, model)
    ensures Paired(ratios)
  {
    forall f | f in ratios ensures ratios[f].upstreams.Keys == ratios[f].confidence.Keys {
      SameChannels(localData, channels, f, model, |channels|);
    }
  }

  ghost predicate ModelPruned(r: map<Field, Item>, localData: Data, channels: seq<Channel>, model: string,
                              keep: set<string>) {
    && (forall f :: f in r <==>
          Included(localData, channels, f, model) && Left(ItemOf(localData, channels, f, model), keep))
    && forall f :: f in r ==> r[f] == Restrict(ItemOf(localData, channels, f, model), keep)
  }

  lemma PrunedIs(r: map<Field, Item>, ratios: map<Field, Item>, localData: Data, channels: seq<Channel>, model: string,
                 keep: set<string>)
    requires Pruned(r, ratios, keep) && ModelEntries(ratios, localData, channels, model)
    ensures ModelPruned(r, localData, channels, model, keep)
  {
  }

  // What survives

  predicate Distinct(channels: seq<Channel>) {
    forall i, j :: 0 <= i < j < |channels| ==> channels[i].name != channels[j].name
  }

  lemma {:induction false} UpstreamNames(localData: Data, channels: seq<Channel>, field: Field, model: string, n: nat,
                                         name: string)
    requires n <= |channels|
    ensures name in Upstreams(localData, channels, field, model, n) <==>
      exists i :: 0 <= i < n && channels[i].name == name
  {
    if n > 0 {
      UpstreamNames(localData, channels, field, model, n - 1, name);
    }
  }

  lemma {:induction false} UpstreamAt(localData: Data, channels: seq<Channel>, field: Field, model: string, n: nat,
                                      i: nat)
    requires i < n <= |channels| && Distinct(channels)
    ensures var upstreams := Upstreams(localData, channels, field, model, n);
      channels[i].name in upstreams && upstreams[channels[i].name] == CellOf(localData, channels[i], field, model)
  {
    if i < n - 1 {
      UpstreamAt(localData, channels, field, model, n - 1, i);
    }
  }

  lemma {:induction false} AnyDiffersIs(localData: Data, channels: seq<Channel>, field: Field, model: string, n: nat)
    requires n <= |channels|
    ensures AnyDiffers(localData, channels, field, model, n) <==>
      exists i :: 0 <= i < n && Differs(localData, channels[i], field, model)
  {
    if n > 0 {
      AnyDiffersIs(localData, channels, field, model, n - 1);
    }
  }

  lemma {:induction false} AnyReportsIs(channels: seq<Channel>, field: Field, model: string, n: nat)
    requires n <= |channels|
    ensures AnyReports(channels, field, model, n) <==> exists i :: 0 <= i < n && Reports(channels[i], field, model)
  {
    if n > 0 {
      AnyReportsIs(channels, field, model, n - 1);
    }
  }

  // A channel shows a difference on an entry exactly when it reports a value that is neither null nor the
  // marker itself and is not the local one.
  lemma VisibleIs(localData: Data, channel: Channel, field: Field, model: string)
    ensures Visible(CellOf(localData, channel, field, model)) <==>
            Differs(localData, channel, field, model) && Visible(Stored(channel.data, field, model).value)
  {
  }

  lemma VisibleIsIncluded(localData: Data, channels: seq<Channel>, field: Field, model: string, i: nat)
    requires i < |channels| && Visible(CellOf(localData, channels[i], field, model))
    ensures Included(localData, channels, field, model)
  {
    VisibleIs(localData, channels[i], field, model);
    AnyDiffersIs(localData, channels, field, model, |channels|);
    AnyReportsIs(channels, field, model, |channels|);
  }

  // Some channel shows a difference somewhere.
  ghost predicate DiffersSomewhere(localData: Data, channel: Channel) {
    exists model, field :: Visible(CellOf(localData, channel, field, model))
  }

  lemma ShownIsDiffers(localData: Data, channels: seq<Channel>, i: nat)
    requires i < |channels| && Distinct(channels)
    ensures ShownSomewhere(localData, channels, channels[i].name) <==> DiffersSomewhere(localData, channels[i])
  {
    forall model, field
      ensures ShownAt(localData, channels, model, field, channels[i].name) <==>
        Visible(CellOf(localData, channels[i], field, model))
    {
      UpstreamAt(localData, channels, field, model, |channels|, i);
      if Visible(CellOf(localData, channels[i], field, model)) {
        VisibleIsIncluded(localData, channels, field, model, i);
      }
    }
    if ShownSomewhere(localData, channels, channels[i].name) {
      var model, field :| ShownAt(localData, channels, model, field, channels[i].name);
      assert Visible(CellOf(localData, channels[i], field, model));
    }
    if DiffersSomewhere(localData, channels[i]) {
      var model, field :| Visible(CellOf(localData, channels[i], field, model));
      assert ShownAt(localData, channels, model, field, channels[i].name);
    }
  }

  lemma LeftIsCells(localData: Data, channels: seq<Channel>, field: Field, model: string, keep: set<string>)
    requires Distinct(channels) && ShownNames(keep, localData, channels)
    ensures Left(ItemOf(localData, channels, field, model), keep) <==>
            exists i ::
              && 0 <= i < |channels| && DiffersSomewhere(localData, channels[i])
              && CellOf(localData, channels[i], field, model) != SAME
  {
    var item := ItemOf(localData, channels, field, model);
    forall i | 0 <= i < |channels|
      ensures channels[i].name in item.upstreams
      ensures item.upstreams[channels[i].name] == CellOf(localData, channels[i], field, model)
      ensures channels[i].name in keep <==> DiffersSomewhere(localData, channels[i])
    {
      UpstreamAt(localData, channels, field, model, |channels|, i);
      ShownIsDiffers(localData, channels, i);
    }
    if Left(item, keep) {
      var name :| name in item.upstreams && name in keep && item.upstreams[name] != SAME;
      UpstreamNames(localData, channels, field, model, |channels|, name);
    }
  }

  ghost predicate AnyVisible(localData: Data, channels: seq<Channel>, field: Field, model: string) {
    exists i :: 0 <= i < |channels| && Visible(CellOf(localData, channels[i], field, model))
  }

  // A channel that shows a difference elsewhere has nothing here.
  ghost predicate AnyBlank(localData: Data, channels: seq<Channel>, field: Field, model: string) {
    exists i ::
      && 0 <= i < |channels| && DiffersSomewhere(localData, channels[i])
      && CellOf(localData, channels[i], field, model).Null?
  }

  // Which entries survive, by what channels show on them.
  lemma SurvivesAsCells(r: map<Field, Item>, localData: Data, channels: seq<Channel>, model: string, keep: set<string>,
                        field: Field)
    requires Distinct(channels) && ShownNames(keep, localData, channels)
    requires ModelPruned(r, localData, channels, model, keep)
    ensures field in r <==>
      || AnyVisible(localData, channels, field, model)
      || (Included(localData, channels, field, model) && AnyBlank(localData, channels, field, model))
  {
    LeftIsCells(localData, channels, field, model, keep);
    forall i | 0 <= i < |channels| && Visible(CellOf(localData, channels[i], field, model))
      ensures Included(localData, channels, field, model) && DiffersSomewhere(localData, channels[i])
    {
      VisibleIsIncluded(localData, channels, field, model, i);
    }
  }

  // Prices and disagreement, read off the lists

  // A list has this value for a model; whole numbers are prices like any other.
  predicate Says(data: Data, field: Field, model: string, v: Value) {
    && field in data && model in data[field]
    && var raw := data[field][model];
       if raw.Whole? && field != BillingMode && field != BillingExpr then v == Num(raw.whole as real) else v == raw
  }

  // Two numbers at least 1e-9 apart, or two values that are not both numbers and not the same.
  predicate Apart(a: Value, b: Value) {
    if a.Num? && b.Num? then a.num - b.num >= 0.000000001 || b.num - a.num >= 0.000000001 else a != b
  }

  predicate Silent(data: Data, field: Field, model: string) {
    field !in data || model !in data[field]
  }

  // There is no value, null being none.
  predicate NoValue(data: Data, field: Field, model: string) {
    Silent(data, field, model) || Says(data, field, model, Null)
  }

  // A channel has a value where there is none here, or one that is apart from the one here.
  ghost predicate Disagrees(localData: Data, channel: Channel, field: Field, model: string) {
    exists v :: Says(channel.data, field, model, v) &&
      if NoValue(localData, field, model) then !v.Null?
      else exists here :: Says(localData, field, model, here) && Apart(here, v)
  }

  lemma SaysIs(data: Data, field: Field, model: string, v: Value)
    ensures Says(data, field, model, v) <==> Stored(data, field, model) == Some(v)
    ensures Silent(data, field, model) <==> Stored(data, field, model).None?
    ensures NoValue(data, field, model) <==> LocalValue(data, field, model).Null?
  {
  }

  lemma ApartIs(a: Value, b: Value)
    ensures Apart(a, b) <==> !ValuesEqual(a, b)
  {
  }

  lemma DisagreesIs(localData: Data, channel: Channel, field: Field, model: string)
    ensures Disagrees(localData, channel, field, model) <==> Differs(localData, channel, field, model)
  {
    var here, there := LocalValue(localData, field, model), Stored(channel.data, field, model);
    SaysIs(localData, field, model, here);
    if there.Some? {
      SaysIs(channel.data, field, model, there.value);
      ApartIs(here, there.value);
    }
    forall v ensures Says(channel.data, field, model, v) <==> there == Some(v) {
      SaysIs(channel.data, field, model, v);
    }
    forall v ensures Says(localData, field, model, v) <==> Stored(localData, field, model) == Some(v) {
      SaysIs(localData, field, model, v);
    }
  }

  // What an entry shows for a channel: its own value where it disagrees, the marker where it agrees, and where it
  // is silent null or, if there is nothing here either, the marker.
  ghost predicate ShownAs(localData: Data, channel: Channel, field: Field, model: string, shown: Value) {
    && (Disagrees(localData, channel, field, model) ==> Says(channel.data, field, model, shown))
    && (!Silent(channel.data, field, model) && !Disagrees(localData, channel, field, model) ==> shown == Str("same"))
    && (Silent(channel.data, field, model) ==>
        shown == if NoValue(localData, field, model) then Str("same") else Null)
  }

  lemma CellIs(localData: Data, channel: Channel, field: Field, model: string)
    ensures ShownAs(localData, channel, field, model, CellOf(localData, channel, field, model))
  {
    DisagreesIs(localData, channel, field, model);
    SaysIs(localData, field, model, LocalValue(localData, field, model));
    SaysIs(channel.data, field, model, CellOf(localData, channel, field, model));
  }

  // A channel disagrees with a value that is neither null nor the marker itself.
  ghost predicate Contradicts(localData: Data, channel: Channel, field: Field, model: string) {
    && Disagrees(localData, channel, field, model)
    && !Says(channel.data, field, model, Null) && !Says(channel.data, field, model, Str("same"))
  }

  ghost predicate ContradictsAnywhere(localData: Data, channel: Channel) {
    exists model, field :: Contradicts(localData, channel, field, model)
  }

  // A channel that contradicts somewhere, and has no value for this entry.
  ghost predicate Lacks(localData: Data, channel: Channel, field: Field, model: string) {
    NoValue(channel.data, field, model) && ContradictsAnywhere(localData, channel)
  }

  lemma ContradictsIs(localData: Data, channel: Channel, field: Field, model: string)
    ensures Contradicts(localData, channel, field, model) <==> Visible(CellOf(localData, channel, field, model))
    ensures CellOf(localData, channel, field, model).Null? <==>
            !NoValue(localData, field, model) && NoValue(channel.data, field, model)
  {
    VisibleIs(localData, channel, field, model);
    DisagreesIs(localData, channel, field, model);
    SaysIs(channel.data, field, model, Null);
    SaysIs(channel.data, field, model, Str("same"));
    SaysIs(localData, field, model, Null);
  }

  lemma ContradictsAnywhereIs(localData: Data, channel: Channel)
    ensures ContradictsAnywhere(localData, channel) <==> DiffersSomewhere(localData, channel)
  {
    if model, field :| Contradicts(localData, channel, field, model) {
      ContradictsIs(localData, channel, field, model);
    }
    if model, field :| Visible(CellOf(localData, channel, field, model)) {
      ContradictsIs(localData, channel, field, model);
    }
  }

  lemma LacksIs(localData: Data, channel: Channel, field: Field, model: string)
    ensures !NoValue(localData, field, model) && Lacks(localData, channel, field, model) <==>
            DiffersSomewhere(localData, channel) && CellOf(localData, channel, field, model).Null?
  {
    ContradictsIs(localData, channel, field, model);
    ContradictsAnywhereIs(localData, channel);
  }

  lemma IncludedIs(localData: Data, channels: seq<Channel>, field: Field, model: string)
    requires !NoValue(localData, field, model)
    ensures Included(localData, channels, field, model) <==>
            exists i :: 0 <= i < |channels| && Disagrees(localData, channels[i], field, model)
  {
    SaysIs(localData, field, model, Null);
    AnyDiffersIs(localData, channels, field, model, |channels|);
    forall i | 0 <= i < |channels|
      ensures Disagrees(localData, channels[i], field, model) <==> Differs(localData, channels[i], field, model)
    {
      DisagreesIs(localData, channels[i], field, model);
    }
  }

  lemma AnyContradicts(localData: Data, channels: seq<Channel>, field: Field, model: string)
    ensures AnyVisible(localData, channels, field, model) <==>
            exists i :: 0 <= i < |channels| && Contradicts(localData, channels[i], field, model)
  {
    forall i | 0 <= i < |channels|
      ensures Contradicts(localData, channels[i], field, model) <==>
              Visible(CellOf(localData, channels[i], field, model))
    {
      ContradictsIs(localData, channels[i], field, model);
    }
  }

  lemma AnyLacks(localData: Data, channels: seq<Channel>, field: Field, model: string)
    ensures AnyBlank(localData, channels, field, model) <==>
            && !NoValue(localData, field, model)
            && exists i :: 0 <= i < |channels| && Lacks(localData, channels[i], field, model)
  {
    forall i | 0 <= i < |channels|
      ensures !NoValue(localData, field, model) && Lacks(localData, channels[i], field, model) <==>
        DiffersSomewhere(localData, channels[i]) && CellOf(localData, channels[i], field, model).Null?
    {
      LacksIs(localData, channels[i], field, model);
    }
  }

  // A channel contradicts the value here, or one disagrees with it and a channel that contradicts elsewhere lacks it.
  ghost predicate Survives(localData: Data, channels: seq<Channel>, field: Field, model: string) {
    || (exists i :: 0 <= i < |channels| && Contradicts(localData, channels[i], field, model))
    || (&& !NoValue(localData, field, model)
        && (exists i :: 0 <= i < |channels| && Disagrees(localData, channels[i], field, model))
        && exists i :: 0 <= i < |channels| && Lacks(localData, channels[i], field, model))
  }

  // On all inputs, read off the lists, which entries survive.
  lemma SurvivesExactlyWhen(r: map<Field, Item>, localData: Data, channels: seq<Channel>, model: string,
                            keep: set<string>, field: Field)
    requires Distinct(channels) && ShownNames(keep, localData, channels)
    requires ModelPruned(r, localData, channels, model, keep)
    ensures field in r <==> Survives(localData, channels, field, model)
  {
    SurvivesAsCells(r, localData, channels, model, keep, field);
    AnyContradicts(localData, channels, field, model);
    AnyLacks(localData, channels, field, model);
    if !NoValue(localData, field, model) {
      IncludedIs(localData, channels, field, model);
    }
  }

  // And a surviving entry lists exactly the channels that contradict somewhere.
  lemma SurvivorLists(r: map<Field, Item>, localData: Data, channels: seq<Channel>, model: string, keep: set<string>,
                      field: Field, i: nat)
    requires Distinct(channels) && ShownNames(keep, localData, channels)
    requires ModelPruned(r, localData, channels, model, keep) && field in r && i < |channels|
    ensures channels[i].name in r[field].upstreams <==> ContradictsAnywhere(localData, channels[i])
    ensures channels[i].name in r[field].upstreams ==>
      ShownAs(localData, channels[i], field, model, r[field].upstreams[channels[i].name])
  {
    UpstreamAt(localData, channels, field, model, |channels|, i);
    ShownIsDiffers(localData, channels, i);
    ContradictsAnywhereIs(localData, channels[i]);
    CellIs(localData, channels[i], field, model);
  }

  // A list has this number for a model.
  predicate Amount(data: Data, field: Field, model: string, x: real) {
    && field in data && model in data[field]
    && (data[field][model] == Num(x) || (data[field][model].Whole? && data[field][model].whole as real == x))
  }

  // A list has the defaults 37.5 and 1 for a model, up to 1e-9.
  ghost predicate HasDefaults(data: Data, model: string) {
    exists ratio, completion ::
      && Amount(data, ModelRatio, model, ratio) && Amount(data, CompletionRatio, model, completion)
      && -0.000000001 < ratio - 37.5 < 0.000000001 && -0.000000001 < completion - 1.0 < 0.000000001
  }

  lemma TrustedIs(data: Data, model: string)
    ensures Trusted(data, model) <==> !HasDefaults(data, model)
  {
    if !Trusted(data, model) {
      var ratio, completion := AsReal(data[ModelRatio][model]).value, AsReal(data[CompletionRatio][model]).value;
      assert Amount(data, ModelRatio, model, ratio) && Amount(data, CompletionRatio, model, completion);
    }
  }

  lemma {:induction false} ConfidenceAt(channels: seq<Channel>, model: string, n: nat, i: nat)
    requires i < n <= |channels| && Distinct(channels)
    ensures var confidences := Confidences(channels, model, n);
      && channels[i].name in confidences
      && (confidences[channels[i].name] <==> !HasDefaults(channels[i].data, model))
  {
    TrustedIs(channels[i].data, model);
    if i < n - 1 {
      ConfidenceAt(channels, model, n - 1, i);
    }
  }

  // A surviving entry has the local value, or null if there is none, and marks a listed channel as trusted exactly
  // when it does not have the defaults for the model.
  lemma EntryIs(r: map<Field, Item>, localData: Data, channels: seq<Channel>, model: string, keep: set<string>,
                field: Field, i: nat)
    requires Distinct(channels) && ModelPruned(r, localData, channels, model, keep) && field in r && i < |channels|
    ensures Says(localData, field, model, r[field].current) ||
            (Silent(localData, field, model) && r[field].current.Null?)
    ensures channels[i].name in r[field].upstreams <==> channels[i].name in r[field].confidence
    ensures channels[i].name in r[field].confidence ==>
      (r[field].confidence[channels[i].name] <==> !HasDefaults(channels[i].data, model))
  {
    SaysIs(localData, field, model, LocalValue(localData, field, model));
    UpstreamAt(localData, channels, field, model, |channels|, i);
    ConfidenceAt(channels, model, |channels|, i);
  }

  // No channel reports null or the marker itself.
  ghost predicate Plain(channels: seq<Channel>) {
    forall i, field, model, v :: 0 <= i < |channels| && Says(channels[i].data, field, model, v) ==>
      !v.Null? && v != Str("same")
  }

  lemma PlainContradicts(localData: Data, channels: seq<Channel>, field: Field, model: string, i: nat)
    requires Plain(channels) && i < |channels|
    ensures Contradicts(localData, channels[i], field, model) <==> Disagrees(localData, channels[i], field, model)
  {
  }

  // On plain reports: an entry survives exactly when some channel disagrees.
  lemma PlainSurvives(r: map<Field, Item>, localData: Data, channels: seq<Channel>, model: string, keep: set<string>,
                      field: Field)
    requires Distinct(channels) && ShownNames(keep, localData, channels)
    requires ModelPruned(r, localData, channels, model, keep)
    requires Plain(channels)
    ensures field in r <==> exists i :: 0 <= i < |channels| && Disagrees(localData, channels[i], field, model)
  {
    SurvivesExactlyWhen(r, localData, channels, model, keep, field);
    forall i | 0 <= i < |channels|
      ensures Contradicts(localData, channels[i], field, model) <==> Disagrees(localData, channels[i], field, model)
    {
      PlainContradicts(localData, channels, field, model, i);
    }
  }

  // And it lists exactly the channels that disagree somewhere.
  lemma PlainLists(r: map<Field, Item>, localData: Data, channels: seq<Channel>, model: string, keep: set<string>,
                   field: Field, i: nat)
    requires Distinct(channels) && ShownNames(keep, localData, channels)
    requires ModelPruned(r, localData, channels, model, keep)
    requires Plain(channels) && field in r && i < |channels|
    ensures channels[i].name in r[field].upstreams <==>
      exists model', field' :: Disagrees(localData, channels[i], field', model')
    ensures channels[i].name in r[field].upstreams ==>
      ShownAs(localData, channels[i], field, model, r[field].upstreams[channels[i].name])
  {
    SurvivorLists(r, localData, channels, model, keep, field, i);
    forall model', field'
      ensures Contradicts(localData, channels[i], field', model') <==> Disagrees(localData, channels[i], field', model')
    {
      PlainContradicts(localData, channels, field', model', i);
    }
  }

  // Without that: a null price and the text "same" differ from what is stored here and are pruned all the same.
  lemma UnshownIsLost(model: string, r: map<Field, Item>, keep: set<string>, marker: bool)
    requires var local: Data := if marker then map[] else map[BillingMode := map[model := Str("fixed")]];
      var channels := [Channel("upstream", map[BillingMode := map[model := if marker then SAME else Null]])];
      ShownNames(keep, local, channels) && ModelPruned(r, local, channels, model, keep)
    ensures var local: Data := if marker then map[] else map[BillingMode := map[model := Str("fixed")]];
      var channels := [Channel("upstream", map[BillingMode := map[model := if marker then SAME else Null]])];
      Disagrees(local, channels[0], BillingMode, model) && BillingMode !in r
  {
    var local: Data := if marker then map[] else map[BillingMode := map[model := Str("fixed")]];
    var channels := [Channel("upstream", map[BillingMode := map[model := if marker then SAME else Null]])];
    forall m, f ensures !Visible(CellOf(local, channels[0], f, m)) {
    }
    SurvivesAsCells(r, local, channels, model, keep, BillingMode);
    DisagreesIs(local, channels[0], BillingMode, model);
  }
}
