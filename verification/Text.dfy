/**
 The string and list helpers the other modules share: Go's `strings.TrimSpace`, `strings.Trim`,
 `strings.Split` and `strings.Join` with a one-character separator, `strings.HasPrefix`, the byte order
 that `sort.Strings` uses, and order-preserving filtering and de-duplication of string lists.
 */
module Text {

  // Trimming

  // Unicode white space, as unicode.IsSpace defines it.
  predicate IsSpace(c: char) {
    var n := c as int;
    || 0x09 <= n <= 0x0D || n == 0x20 || n == 0x85 || n == 0xA0 || n == 0x1680 || 0x2000 <= n <= 0x200A
    || n == 0x2028 || n == 0x2029 || n == 0x202F || n == 0x205F || n == 0x3000
  }

  function TrimLeft(s: string, cut: char -> bool): (r: string)
    ensures |r| <= |s| && r == s[|s| - |r|..]
    ensures |r| > 0 ==> !cut(r[0])
  {
    if |s| > 0 && cut(s[0]) then TrimLeft(s[1..], cut) else s
  }

  function TrimRight(s: string, cut: char -> bool): (r: string)
    ensures |r| <= |s| && r == s[..|r|]
    ensures |r| > 0 ==> !cut(r[|r| - 1])
  {
    if |s| > 0 && cut(s[|s| - 1]) then TrimRight(s[..|s| - 1], cut) else s
  }

  function Trim(s: string, cut: char -> bool): string {
    TrimRight(TrimLeft(s, cut), cut)
  }

  function TrimSpace(s: string): string {
    Trim(s, IsSpace)
  }

  // Nothing to trim.
  predicate Tight(s: string, cut: char -> bool) {
    |s| > 0 ==> !cut(s[0]) && !cut(s[|s| - 1])
  }

  lemma TrimIsTight(s: string, cut: char -> bool)
    ensures Tight(Trim(s, cut), cut)
    ensures Tight(s, cut) ==> Trim(s, cut) == s
    ensures forall c :: c in Trim(s, cut) ==> c in s
  {
  }

  predicate AllCut(s: string, cut: char -> bool) {
    forall i :: 0 <= i < |s| ==> cut(s[i])
  }

  lemma {:induction false} TrimLeftIs(s: string, cut: char -> bool)
    ensures AllCut(s[..|s| - |TrimLeft(s, cut)|], cut)
  {
    if |s| > 0 && cut(s[0]) {
      var n := |s| - |TrimLeft(s, cut)|;
      TrimLeftIs(s[1..], cut);
      assert forall i :: 0 < i < n ==> s[..n][i] == s[1..][..n - 1][i - 1];
    }
  }

  lemma {:induction false} TrimRightIs(s: string, cut: char -> bool)
    ensures AllCut(s[|TrimRight(s, cut)|..], cut)
  {
    if |s| > 0 && cut(s[|s| - 1]) {
      var n, front := |TrimRight(s, cut)|, s[..|s| - 1];
      TrimRightIs(front, cut);
      assert forall i :: 0 <= i < |s| - 1 - n ==> s[n..][i] == front[n..][i];
    }
  }

  lemma TrimmedOffLeft(s: string, cut: char -> bool) returns (before: string)
    ensures s == before + TrimLeft(s, cut) && AllCut(before, cut)
  {
    TrimLeftIs(s, cut);
    before := s[..|s| - |TrimLeft(s, cut)|];
    Halves(s, |before|);
  }

  lemma TrimmedOffRight(s: string, cut: char -> bool) returns (after: string)
    ensures s == TrimRight(s, cut) + after && AllCut(after, cut)
  {
    TrimRightIs(s, cut);
    after := s[|TrimRight(s, cut)|..];
    Halves(s, |TrimRight(s, cut)|);
  }

  // Trimming takes cut characters off both ends, and all of them.
  lemma TrimIs(s: string, cut: char -> bool) returns (before: string, after: string)
    ensures s == before + (Trim(s, cut) + after) && AllCut(before, cut) && AllCut(after, cut)
    ensures Tight(Trim(s, cut), cut)
  {
    before := TrimmedOffLeft(s, cut);
    after := TrimmedOffRight(TrimLeft(s, cut), cut);
    TrimIsTight(s, cut);
  }

  lemma Halves(s: string, n: nat)
    requires n <= |s|
    ensures s == s[..n] + s[n..]
  {
  }

  predicate HasPrefix(s: string, prefix: string) {
    |prefix| <= |s| && s[..|prefix|] == prefix
  }

  // Splitting and joining

  function Split(s: string, sep: char): (parts: seq<string>)
    ensures |parts| >= 1
    ensures forall i :: 0 <= i < |parts| ==> sep !in parts[i]
  {
    if |s| == 0 then [""]
    else
      var rest := Split(s[1..], sep);
      if s[0] == sep then [""] + rest else [[s[0]] + rest[0]] + rest[1..]
  }

  function Join(parts: seq<string>, sep: char): string {
    if |parts| == 0 then ""
    else if |parts| == 1 then parts[0]
    else parts[0] + [sep] + Join(parts[1..], sep)
  }

  lemma {:induction false} SplitPart(part: string, s: string, sep: char)
    requires sep !in part
    ensures Split(part + s, sep) == [part + Split(s, sep)[0]] + Split(s, sep)[1..]
  {
    if |part| == 0 {
      assert part + s == s;
      assert part + Split(s, sep)[0] == Split(s, sep)[0];
    } else {
      assert (part + s)[1..] == part[1..] + s;
      SplitPart(part[1..], s, sep);
      assert [part[0]] + (part[1..] + Split(s, sep)[0]) == part + Split(s, sep)[0];
    }
  }

  lemma {:induction false} SplitJoin(parts: seq<string>, sep: char)
    requires |parts| >= 1
    requires forall i :: 0 <= i < |parts| ==> sep !in parts[i]
    ensures Split(Join(parts, sep), sep) == parts
  {
    if |parts| == 1 {
      SplitPart(parts[0], "", sep);
      assert parts[0] + "" == parts[0];
    } else {
      var tail := [sep] + Join(parts[1..], sep);
      assert parts[0] + [sep] + Join(parts[1..], sep) == parts[0] + tail;
      SplitPart(parts[0], tail, sep);
      assert tail[1..] == Join(parts[1..], sep);
      SplitJoin(parts[1..], sep);
      assert Split(tail, sep) == [""] + parts[1..];
      assert parts[0] + "" == parts[0];
    }
  }

  // Splitting loses nothing: joined again the parts, which hold no separator, are the string.
  lemma {:induction false} JoinSplit(s: string, sep: char)
    ensures Join(Split(s, sep), sep) == s
  {
    if |s| > 0 {
      JoinSplit(s[1..], sep);
      var rest := Split(s[1..], sep);
      assert s == [s[0]] + s[1..];
      if s[0] == sep {
        assert ([""] + rest)[1..] == rest;
      } else {
        var parts := [[s[0]] + rest[0]] + rest[1..];
        assert parts[1..] == rest[1..];
      }
    }
  }

  lemma {:induction false} JoinEnds(parts: seq<string>, sep: char)
    requires |parts| >= 1 && |parts[0]| > 0 && |parts[|parts| - 1]| > 0
    ensures var s := Join(parts, sep);
      |s| > 0 && s[0] == parts[0][0] && s[|s| - 1] == parts[|parts| - 1][|parts[|parts| - 1]| - 1]
  {
    if |parts| > 1 {
      JoinTail(parts, sep);
    }
  }

  lemma {:induction false} JoinTail(parts: seq<string>, sep: char)
    requires |parts| >= 1 && |parts[|parts| - 1]| > 0
    ensures var s := Join(parts, sep);
      |s| > 0 && s[|s| - 1] == parts[|parts| - 1][|parts[|parts| - 1]| - 1]
  {
    if |parts| > 1 {
      JoinTail(parts[1..], sep);
    }
  }

  // `strings.Split(strings.Trim(s, sep), sep)`, the way the repository reads a stored list.
  function ReadList(s: string, sep: char): (parts: seq<string>)
    ensures forall i :: 0 <= i < |parts| ==> sep !in parts[i]
  {
    if s == "" then [] else Split(Trim(s, c => c == sep), sep)
  }

  // A list whose ends trimming leaves alone.
  predicate Readable(parts: seq<string>) {
    |parts| > 0 ==> |parts[0]| > 0 && |parts[|parts| - 1]| > 0
  }

  lemma ReadBack(parts: seq<string>, sep: char)
    requires forall i :: 0 <= i < |parts| ==> sep !in parts[i]
    requires Readable(parts)
    ensures ReadList(Join(parts, sep), sep) == parts
    ensures |parts| > 0 ==> |Join(parts, sep)| > 0
  {
    if |parts| > 0 {
      JoinEndsDiffer(parts, sep);
      TrimIsTight(Join(parts, sep), c => c == sep);
      SplitJoin(parts, sep);
    }
  }

  lemma JoinEndsDiffer(parts: seq<string>, sep: char)
    requires forall i :: 0 <= i < |parts| ==> sep !in parts[i]
    requires Readable(parts) && |parts| > 0
    ensures var s := Join(parts, sep);
      |s| > 0 && s[0] != sep && s[|s| - 1] != sep
  {
    JoinEnds(parts, sep);
    var first, final := parts[0], parts[|parts| - 1];
    assert first[0] in first && final[|final| - 1] in final;
  }

  // What is read back in general: the list without the empty elements at its ends, at least one element left.

  function StripLeft(parts: seq<string>): (r: seq<string>)
    ensures |r| <= |parts| && r == parts[|parts| - |r|..]
    ensures |parts| > 0 ==> |r| > 0 && (|r| == 1 || |r[0]| > 0)
    ensures forall i :: 0 <= i < |parts| - |r| ==> |parts[i]| == 0
  {
    if |parts| > 1 && |parts[0]| == 0 then StripLeft(parts[1..]) else parts
  }

  function StripRight(parts: seq<string>): (r: seq<string>)
    ensures |r| <= |parts| && r == parts[..|r|]
    ensures |parts| > 0 ==> |r| > 0 && (|r| == 1 || |r[|r| - 1]| > 0)
  {
    if |parts| > 1 && |parts[|parts| - 1]| == 0 then StripRight(parts[..|parts| - 1]) else parts
  }

  function Strip(parts: seq<string>): (r: seq<string>)
    ensures |r| <= |parts| && (|parts| > 0 ==> |r| > 0)
  {
    StripRight(StripLeft(parts))
  }

  lemma StripAt(parts: seq<string>, i: nat)
    requires i < |Strip(parts)|
    ensures var m := |parts| - |StripLeft(parts)|;
      i + m < |parts| && Strip(parts)[i] == parts[i + m]
  {
  }

  lemma {:induction false} TrimLeftBefore(s: string, cut: char -> bool, c: char)
    requires cut(c)
    ensures TrimLeft(s + [c], cut) == if |TrimLeft(s, cut)| > 0 then TrimLeft(s, cut) + [c] else ""
  {
    if |s| == 0 {
      assert (s + [c])[1..] == "";
    } else {
      assert (s + [c])[0] == s[0] && (s + [c])[1..] == s[1..] + [c];
      TrimLeftBefore(s[1..], cut, c);
    }
  }

  // Trimming forgets a cut character at either end.
  lemma TrimForgets(s: string, cut: char -> bool, c: char)
    requires cut(c)
    ensures Trim([c] + s, cut) == Trim(s, cut) && Trim(s + [c], cut) == Trim(s, cut)
  {
    assert ([c] + s)[1..] == s;
    TrimLeftBefore(s, cut, c);
    var left := TrimLeft(s, cut);
    assert (left + [c])[..|left|] == left;
  }

  lemma {:induction false} JoinLast(parts: seq<string>, sep: char)
    requires |parts| > 1
    ensures Join(parts, sep) == Join(parts[..|parts| - 1], sep) + [sep] + parts[|parts| - 1]
  {
    var front, last := parts[..|parts| - 1], parts[|parts| - 1];
    if |parts| == 2 {
      assert front == [parts[0]] && parts[1..] == [last];
    } else {
      assert parts[1..][..|parts| - 2] == front[1..] && parts[1..][|parts| - 2] == last;
      JoinLast(parts[1..], sep);
      assert Join(parts, sep) == parts[0] + [sep] + (Join(front[1..], sep) + [sep] + last);
      assert Join(front, sep) == parts[0] + [sep] + Join(front[1..], sep);
      assert parts[0] + [sep] + (Join(front[1..], sep) + [sep] + last) ==
        parts[0] + [sep] + Join(front[1..], sep) + [sep] + last;
    }
  }

  lemma {:induction false} StripLeftTrims(parts: seq<string>, sep: char)
    requires |parts| > 0
    ensures Trim(Join(parts, sep), c => c == sep) == Trim(Join(StripLeft(parts), sep), c => c == sep)
  {
    if |parts| > 1 && |parts[0]| == 0 {
      assert Join(parts, sep) == [sep] + Join(parts[1..], sep);
      TrimForgets(Join(parts[1..], sep), c => c == sep, sep);
      StripLeftTrims(parts[1..], sep);
    }
  }

  lemma {:induction false} StripRightTrims(parts: seq<string>, sep: char)
    requires |parts| > 0
    ensures Trim(Join(parts, sep), c => c == sep) == Trim(Join(StripRight(parts), sep), c => c == sep)
  {
    var front := parts[..|parts| - 1];
    if |parts| > 1 && |parts[|parts| - 1]| == 0 {
      JoinLast(parts, sep);
      assert Join(parts, sep) == Join(front, sep) + [sep];
      TrimForgets(Join(front, sep), c => c == sep, sep);
      StripRightTrims(front, sep);
    }
  }

  // A list with nothing to strip is trimmed to itself.
  lemma StrippedIsTight(parts: seq<string>, sep: char)
    requires |parts| > 0 && (|parts| == 1 || Readable(parts))
    requires forall i :: 0 <= i < |parts| ==> sep !in parts[i]
    ensures Trim(Join(parts, sep), c => c == sep) == Join(parts, sep)
  {
    var s := Join(parts, sep);
    if |s| > 0 {
      if |parts| == 1 {
        assert s == parts[0] && s[0] in s && s[|s| - 1] in s;
      } else {
        JoinEndsDiffer(parts, sep);
      }
    }
    TrimIsTight(s, c => c == sep);
  }

  lemma StripEnds(parts: seq<string>)
    requires |parts| > 0
    ensures |Strip(parts)| == 1 || Readable(Strip(parts))
    ensures forall x :: x in Strip(parts) ==> x in parts
  {
    var left := StripLeft(parts);
    var r := StripRight(left);
    if |r| > 1 {
      assert r[0] == left[0];
    }
  }

  // Joining and reading back strips the list; a single empty element is not read back at all.
  lemma ReadsBackStripped(parts: seq<string>, sep: char)
    requires |parts| > 0 && forall i :: 0 <= i < |parts| ==> sep !in parts[i]
    ensures ReadList(Join(parts, sep), sep) == if |Join(parts, sep)| == 0 then [] else Strip(parts)
    ensures |Join(parts, sep)| == 0 <==> |parts| == 1 && |parts[0]| == 0
  {
    var r := Strip(parts);
    StripEnds(parts);
    forall i | 0 <= i < |r| ensures sep !in r[i] {
      assert r[i] in r;
    }
    StripLeftTrims(parts, sep);
    StripRightTrims(StripLeft(parts), sep);
    StrippedIsTight(r, sep);
    SplitJoin(r, sep);
  }

  // A list without the separator is read back as it was written exactly when its ends are not empty.
  lemma ReadsBackExactlyWhen(parts: seq<string>, sep: char)
    requires forall i :: 0 <= i < |parts| ==> sep !in parts[i]
    ensures ReadList(Join(parts, sep), sep) == parts <==> Readable(parts)
  {
    if |parts| > 0 {
      ReadsBackStripped(parts, sep);
      StripEnds(parts);
      if Readable(parts) {
        ReadBack(parts, sep);
      }
    }
  }

  // Lists

  ghost predicate NoDup<T>(xs: seq<T>) {
    forall i, j :: 0 <= i < j < |xs| ==> xs[i] != xs[j]
  }

  function Elements<T(!new)>(xs: seq<T>): set<T> {
    set x | x in xs
  }

  // The elements of xs outside and inside a set, in order.

  function Minus<T(!new)>(xs: seq<T>, out: set<T>): (ys: seq<T>)
    ensures forall y :: y in ys <==> y in xs && y !in out
  {
    if |xs| == 0 then []
    else
      var last := xs[|xs| - 1];
      assert xs == xs[..|xs| - 1] + [last];
      Minus(xs[..|xs| - 1], out) + (if last !in out then [last] else [])
  }

  function Meet<T(!new)>(xs: seq<T>, inn: set<T>): (ys: seq<T>)
    ensures forall y :: y in ys <==> y in xs && y in inn
  {
    if |xs| == 0 then []
    else
      var last := xs[|xs| - 1];
      assert xs == xs[..|xs| - 1] + [last];
      Meet(xs[..|xs| - 1], inn) + (if last in inn then [last] else [])
  }

  lemma {:induction false} MinusNoDup<T(!new)>(xs: seq<T>, out: set<T>)
    requires NoDup(xs)
    ensures NoDup(Minus(xs, out))
  {
    if |xs| > 0 {
      MinusNoDup(xs[..|xs| - 1], out);
      var front := Minus(xs[..|xs| - 1], out);
      assert forall i :: 0 <= i < |front| ==> front[i] in front;
    }
  }

  lemma {:induction false} MeetNoDup<T(!new)>(xs: seq<T>, inn: set<T>)
    requires NoDup(xs)
    ensures NoDup(Meet(xs, inn))
  {
    if |xs| > 0 {
      MeetNoDup(xs[..|xs| - 1], inn);
      var front := Meet(xs[..|xs| - 1], inn);
      assert forall i :: 0 <= i < |front| ==> front[i] in front;
    }
  }

  lemma {:induction false} MinusAppend<T(!new)>(xs: seq<T>, ys: seq<T>, out: set<T>)
    ensures Minus(xs + ys, out) == Minus(xs, out) + Minus(ys, out)
  {
    if |ys| == 0 {
      assert xs + ys == xs;
    } else {
      assert (xs + ys)[..|xs + ys| - 1] == xs + ys[..|ys| - 1];
      MinusAppend(xs, ys[..|ys| - 1], out);
    }
  }

  lemma {:induction false} MeetAppend<T(!new)>(xs: seq<T>, ys: seq<T>, inn: set<T>)
    ensures Meet(xs + ys, inn) == Meet(xs, inn) + Meet(ys, inn)
  {
    if |ys| == 0 {
      assert xs + ys == xs;
    } else {
      assert (xs + ys)[..|xs + ys| - 1] == xs + ys[..|ys| - 1];
      MeetAppend(xs, ys[..|ys| - 1], inn);
    }
  }

  // Removing what is not there changes nothing.
  lemma {:induction false} MinusNothing<T(!new)>(xs: seq<T>, out: set<T>)
    requires forall x :: x in xs ==> x !in out
    ensures Minus(xs, out) == xs
  {
    if |xs| > 0 {
      var front := xs[..|xs| - 1];
      assert xs == front + [xs[|xs| - 1]];
      MinusNothing(front, out);
    }
  }

  lemma {:induction false} MeetEverything<T(!new)>(xs: seq<T>, inn: set<T>)
    requires forall x :: x in xs ==> x in inn
    ensures Meet(xs, inn) == xs
  {
    if |xs| > 0 {
      var front := xs[..|xs| - 1];
      assert xs == front + [xs[|xs| - 1]];
      MeetEverything(front, inn);
    }
  }

  // lo.Uniq: keeps the first of equal elements.
  function Uniq<T(==,!new)>(xs: seq<T>): (ys: seq<T>)
    ensures forall y :: y in ys <==> y in xs
    ensures NoDup(ys)
  {
    if |xs| == 0 then []
    else
      var front, last := Uniq(xs[..|xs| - 1]), xs[|xs| - 1];
      assert xs == xs[..|xs| - 1] + [last];
      if last in front then front else front + [last]
  }

  lemma {:induction false} UniqOfNoDup<T(!new)>(xs: seq<T>)
    requires NoDup(xs)
    ensures Uniq(xs) == xs
  {
    if |xs| > 0 {
      UniqOfNoDup(xs[..|xs| - 1]);
    }
  }

  // The places below n that a condition picks out, in order, and a list of what is found there.

  ghost predicate Picked(places: seq<nat>, n: nat, keep: nat -> bool) {
    && (forall i, j :: 0 <= i < j < |places| ==> places[i] < places[j])
    && (forall k: nat :: k in places <==> k < n && keep(k))
  }

  ghost predicate FoundAt<T>(ys: seq<T>, places: seq<nat>, at: nat -> T) {
    |ys| == |places| && forall i :: 0 <= i < |ys| ==> ys[i] == at(places[i])
  }

  lemma PickNext<T>(ys: seq<T>, zs: seq<T>, places: seq<nat>, n: nat, keep: nat -> bool, at: nat -> T)
    returns (next: seq<nat>)
    requires Picked(places, n, keep) && FoundAt(ys, places, at) && zs == ys + if keep(n) then [at(n)] else []
    ensures Picked(next, n + 1, keep) && FoundAt(zs, next, at)
  {
    assert forall i :: 0 <= i < |places| ==> places[i] in places;
    next := if keep(n) then places + [n] else places;
  }

  function ElementAt<T>(xs: seq<T>, default: T): nat -> T {
    (k: nat) => if k < |xs| then xs[k] else default
  }

  function NewAt<T(==)>(xs: seq<T>): nat -> bool {
    (k: nat) => k < |xs| && xs[k] !in xs[..k]
  }

  // What is kept of equal elements is the first of them, in order.
  lemma {:induction false} UniqIs<T(!new)>(xs: seq<T>, n: nat, default: T) returns (places: seq<nat>)
    requires n <= |xs|
    ensures Picked(places, n, NewAt(xs)) && FoundAt(Uniq(xs[..n]), places, ElementAt(xs, default))
  {
    places := [];
    if n > 0 {
      places := UniqIs(xs, n - 1, default);
      assert xs[..n] == xs[..n - 1] + [xs[n - 1]];
      UniqNext(xs[..n - 1], xs[n - 1]);
      places := PickNext(Uniq(xs[..n - 1]), Uniq(xs[..n]), places, n - 1, NewAt(xs), ElementAt(xs, default));
    }
  }

  // One more element for a pass that keeps what it has not seen.

  ghost predicate HasSeen<T(!new)>(seen: set<T>, known: set<T>, xs: seq<T>) {
    forall x :: x in seen <==> x in known || x in xs
  }

  lemma HasSeenNext<T(!new)>(seen: set<T>, known: set<T>, xs: seq<T>, x: T)
    requires HasSeen(seen, known, xs)
    ensures x in seen ==> HasSeen(seen, known, xs + [x])
    ensures HasSeen(seen + {x}, known, xs + [x])
  {
  }

  lemma UniqNext<T(!new)>(xs: seq<T>, x: T)
    ensures Uniq(xs + [x]) == if x in xs then Uniq(xs) else Uniq(xs) + [x]
  {
    assert (xs + [x])[..|xs|] == xs;
  }

  lemma UnseenNext<T(!new)>(xs: seq<T>, known: set<T>, x: T)
    ensures var before := Minus(Uniq(xs), known);
      Minus(Uniq(xs + [x]), known) == if x in xs || x in known then before else before + [x]
  {
    UniqNext(xs, x);
    var uniq := Uniq(xs);
    assert (uniq + [x])[..|uniq|] == uniq;
  }

  lemma UnseenAt<T(!new)>(names: seq<T>, known: set<T>, seen: set<T>, i: nat)
    requires i < |names| && HasSeen(seen, known, names[..i])
    ensures var before, after := Minus(Uniq(names[..i]), known), Minus(Uniq(names[..i + 1]), known);
      if names[i] in seen then after == before && HasSeen(seen, known, names[..i + 1])
      else after == before + [names[i]] && HasSeen(seen + {names[i]}, known, names[..i + 1])
  {
    assert names[..i + 1] == names[..i] + [names[i]];
    UnseenNext(names[..i], known, names[i]);
    HasSeenNext(seen, known, names[..i], names[i]);
  }

  // Normalized lists of names: trimmed, without empty names and without duplicates.

  // A name as normalization leaves it: not empty and with nothing to trim.
  predicate Clean(name: string) {
    |name| > 0 && !IsSpace(name[0]) && !IsSpace(name[|name| - 1])
  }

  lemma TrimCleans(name: string)
    ensures TrimSpace(name) == "" || Clean(TrimSpace(name))
    ensures Clean(name) ==> TrimSpace(name) == name
  {
    TrimIsTight(name, IsSpace);
  }

  // lo.FilterMap with TrimSpace, dropping what is empty.
  function Cleaned(models: seq<string>): (names: seq<string>)
    ensures forall name :: name in names ==> Clean(name)
  {
    if |models| == 0 then []
    else
      TrimCleans(models[|models| - 1]);
      var trimmed := TrimSpace(models[|models| - 1]);
      Cleaned(models[..|models| - 1]) + (if trimmed != "" then [trimmed] else [])
  }

  lemma CleanedNext(models: seq<string>, i: nat)
    requires i < |models|
    ensures var name, before := TrimSpace(models[i]), Cleaned(models[..i]);
      Cleaned(models[..i + 1]) == if |name| > 0 then before + [name] else before
  {
    assert models[..i + 1][..i] == models[..i];
  }

  function Normalize(models: seq<string>): seq<string> {
    Uniq(Cleaned(models))
  }

  predicate AllClean(names: seq<string>) {
    forall name :: name in names ==> Clean(name)
  }

  ghost predicate Normal(names: seq<string>) {
    NoDup(names) && AllClean(names)
  }

  lemma {:induction false} CleanedOfClean(names: seq<string>)
    requires AllClean(names)
    ensures Cleaned(names) == names
  {
    if |names| > 0 {
      var front, last := names[..|names| - 1], names[|names| - 1];
      assert names == front + [last] && Clean(last);
      TrimCleans(last);
      CleanedOfClean(front);
    }
  }

  // Normalization yields a normal list and leaves a normal list alone.
  lemma NormalizeIsNormal(models: seq<string>)
    ensures Normal(Normalize(models))
    ensures Normal(models) ==> Normalize(models) == models
  {
    if Normal(models) {
      CleanedOfClean(models);
      UniqOfNoDup(models);
    }
  }

  function TrimmedAt(models: seq<string>): nat -> string {
    (k: nat) => if k < |models| then TrimSpace(models[k]) else ""
  }

  function NotBlankAt(models: seq<string>): nat -> bool {
    (k: nat) => k < |models| && |TrimSpace(models[k])| > 0
  }

  lemma CleanedStep(models: seq<string>, n: nat)
    requires n < |models|
    ensures Cleaned(models[..n + 1]) ==
      Cleaned(models[..n]) + if NotBlankAt(models)(n) then [TrimmedAt(models)(n)] else []
  {
    CleanedNext(models, n);
  }

  // Cleaning keeps every name that is not empty once trimmed, trimmed and in order.
  lemma {:induction false} CleanedIs(models: seq<string>, n: nat) returns (places: seq<nat>)
    requires n <= |models|
    ensures Picked(places, n, NotBlankAt(models)) && FoundAt(Cleaned(models[..n]), places, TrimmedAt(models))
  {
    places := [];
    if n > 0 {
      places := CleanedIs(models, n - 1);
      CleanedStep(models, n - 1);
      places := PickNext(Cleaned(models[..n - 1]), Cleaned(models[..n]), places, n - 1, NotBlankAt(models),
                         TrimmedAt(models));
    }
  }

  // Index sets

  // How many of 0, .., n - 1 are not in the set.
  function Missing(indices: set<nat>, n: nat): nat {
    if n == 0 then 0 else Missing(indices, n - 1) + (if n - 1 in indices then 0 else 1)
  }

  lemma {:induction false} MissingWithout(indices: set<nat>, n: nat, k: nat)
    requires n <= k
    ensures Missing(indices - {k}, n) == Missing(indices, n)
  {
    if n > 0 {
      MissingWithout(indices, n - 1, k);
    }
  }

  lemma {:induction false} PresentAndMissing(indices: set<nat>, n: nat)
    requires forall i :: i in indices ==> i < n
    ensures |indices| + Missing(indices, n) == n
  {
    if n > 0 {
      var rest := indices - {n - 1};
      PresentAndMissing(rest, n - 1);
      MissingWithout(indices, n - 1, n - 1);
      assert |rest| == |indices| - (if n - 1 in indices then 1 else 0) by {
        if n - 1 !in indices { assert rest == indices; }
      }
    }
  }

  // Order

  // The order of sort.Strings; on UTF-8 text byte order and code point order agree.
  predicate Less(a: string, b: string) {
    |b| > 0 && (|a| == 0 || a[0] < b[0] || (a[0] == b[0] && Less(a[1..], b[1..])))
  }

  lemma {:induction false} LessAsymmetric(a: string, b: string)
    requires Less(a, b)
    ensures !Less(b, a)
  {
    if |a| > 0 && a[0] == b[0] {
      LessAsymmetric(a[1..], b[1..]);
    }
  }

  lemma {:induction false} LessTransitive(a: string, b: string, c: string)
    requires Less(a, b) && Less(b, c)
    ensures Less(a, c)
  {
    if |a| > 0 && a[0] == b[0] == c[0] {
      LessTransitive(a[1..], b[1..], c[1..]);
    }
  }

  lemma {:induction false} LessTotal(a: string, b: string)
    ensures a == b || Less(a, b) || Less(b, a)
  {
    if |a| > 0 && |b| > 0 && a[0] == b[0] {
      LessTotal(a[1..], b[1..]);
      assert a == [a[0]] + a[1..] && b == [b[0]] + b[1..];
    }
  }

  // One string is the beginning of the other, or has the smaller character where they first differ.
  lemma {:induction false} LessIs(a: string, b: string)
    ensures Less(a, b) <==> (a < b || exists i :: DifferAt(a, b, i) && a[i] < b[i])
  {
    if |a| > 0 && |b| > 0 && a[0] == b[0] {
      LessIs(a[1..], b[1..]);
      assert a == [a[0]] + a[1..] && b == [b[0]] + b[1..];
      forall i: nat ensures DifferAt(a[1..], b[1..], i) <==> DifferAt(a, b, i + 1) {
        DifferNext(a, b, i);
      }
      if i :| DifferAt(a, b, i) && a[i] < b[i] {
        assert DifferAt(a[1..], b[1..], i - 1);
      }
      if i :| DifferAt(a[1..], b[1..], i) && a[1..][i] < b[1..][i] {
        assert DifferAt(a, b, i + 1);
      }
    } else if |a| > 0 && |b| > 0 {
      assert DifferAt(a, b, 0);
      forall i | DifferAt(a, b, i) ensures i == 0 || a[0] == b[0] {
        if i > 0 {
          SameStart(a, b, i);
        }
      }
    }
  }

  lemma SameStart(a: string, b: string, i: int)
    requires DifferAt(a, b, i) && i > 0
    ensures a[0] == b[0]
  {
    assert a[..i][0] == b[..i][0];
  }

  predicate DifferAt(a: string, b: string, i: int) {
    0 <= i < |a| && i < |b| && a[i] != b[i] && a[..i] == b[..i]
  }

  lemma DifferNext(a: string, b: string, i: nat)
    requires |a| > 0 && |b| > 0 && a[0] == b[0]
    ensures DifferAt(a[1..], b[1..], i) <==> DifferAt(a, b, i + 1)
  {
    if i + 1 < |a| && i + 1 < |b| {
      assert a[..i + 1] == [a[0]] + a[1..][..i] && b[..i + 1] == [b[0]] + b[1..][..i];
      if a[..i + 1] == b[..i + 1] {
        assert a[1..][..i] == a[..i + 1][1..] && b[1..][..i] == b[..i + 1][1..];
      }
    }
  }

  ghost predicate Ascending(names: seq<string>) {
    forall i, j :: 0 <= i < j < |names| ==> Less(names[i], names[j])
  }

  // A new name put in its place.
  function Insert(names: seq<string>, name: string): (r: seq<string>)
    requires Ascending(names) && name !in names
    ensures Ascending(r)
    ensures forall x :: x in r <==> x in names || x == name
  {
    if |names| == 0 then [name]
    else
      var front, last := names[..|names| - 1], names[|names| - 1];
      assert names == front + [last];
      LessTotal(last, name);
      if Less(last, name) then
        LessAll(names, name);
        names + [name]
      else
        var rest := Insert(front, name);
        assert forall i :: 0 <= i < |rest| ==> rest[i] in rest;
        rest + [last]
  }

  lemma LessAll(names: seq<string>, name: string)
    requires Ascending(names) && |names| > 0 && Less(names[|names| - 1], name)
    ensures Ascending(names + [name])
  {
    forall i | 0 <= i < |names| ensures Less(names[i], name) {
      if i < |names| - 1 {
        LessTransitive(names[i], names[|names| - 1], name);
      }
    }
  }

  // The members of a set as sort.Strings leaves them, in whatever order they are picked.
  method SortKeys(keys: set<string>) returns (names: seq<string>)
    ensures Ascending(names)
    ensures forall x :: x in names <==> x in keys
  {
    names := [];
    var pending := keys;
    while pending != {}
      invariant Ascending(names) && pending <= keys
      invariant forall x :: x in names <==> x in keys && x !in pending
      decreases pending
    {
      var name :| name in pending;
      names := Insert(names, name);
      pending := pending - {name};
    }
  }
}
