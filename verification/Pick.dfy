/** Choosing one of several fully qualified names by a dot-boundary suffix, and the hint that names one uniquely. */
module Pick {

  datatype PickMatch = Selected(index: nat) | Ambiguous(indices: seq<nat>) | Missed

  /** The name is the suffix, or has it behind a dot. */
  predicate IsDotSuffix(fqn: string, suffix: string) {
    fqn == suffix
    || (|suffix| < |fqn| && fqn[|fqn| - |suffix|..] == suffix && fqn[|fqn| - |suffix| - 1] == '.')
  }

  /** The index of the first candidate that is `pick`, or the number of candidates. */
  function Position(pick: string, fqns: seq<string>): (r: nat)
    ensures r <= |fqns| && (r < |fqns| ==> fqns[r] == pick) && pick !in fqns[..r]
  {
    if fqns == [] then 0
    else if fqns[0] == pick then 0
    else
      var r := Position(pick, fqns[1..]);
      assert fqns[..1 + r] == [fqns[0]] + fqns[1..][..r];
      1 + r
  }

  /** The candidates that carry the suffix, in order. */
  function Carriers(fqns: seq<string>, suffix: string): seq<nat> {
    if fqns == [] then []
    else
      var n := |fqns| - 1;
      Carriers(fqns[..n], suffix) + if IsDotSuffix(fqns[n], suffix) then [n] else []
  }

  lemma {:induction false} CarriersContents(fqns: seq<string>, suffix: string)
    ensures forall i: nat :: i in Carriers(fqns, suffix) <==> Carries(fqns, suffix, i)
    ensures forall i, j | 0 <= i < j < |Carriers(fqns, suffix)| :: Carriers(fqns, suffix)[i] < Carriers(fqns, suffix)[j]
  {
    if fqns != [] {
      var n := |fqns| - 1;
      var before := Carriers(fqns[..n], suffix);
      CarriersContents(fqns[..n], suffix);
      forall i: nat
        ensures i in Carriers(fqns, suffix) <==> Carries(fqns, suffix, i)
      {
        assert i in before <==> Carries(fqns[..n], suffix, i);
        assert i < n ==> fqns[..n][i] == fqns[i];
      }
      forall k | 0 <= k < |before|
        ensures before[k] < n
      {
        assert before[k] in before;
        assert Carries(fqns[..n], suffix, before[k]);
      }
    }
  }

  /** An exact name wins; otherwise the suffix selects, lists or misses. */
  function MatchPick(pick: string, fqns: seq<string>): PickMatch {
    var exact := Position(pick, fqns);
    if exact < |fqns| then Selected(exact)
    else
      var matched := Carriers(fqns, pick);
      if matched == [] then Missed
      else if |matched| == 1 then Selected(matched[0])
      else Ambiguous(matched)
  }

  ghost predicate Carries(fqns: seq<string>, suffix: string, i: nat) {
    i < |fqns| && IsDotSuffix(fqns[i], suffix)
  }

  ghost predicate FirstOf(fqns: seq<string>, pick: string, i: nat) {
    i < |fqns| && fqns[i] == pick && pick !in fqns[..i]
  }

  ghost predicate OnlyCarrier(fqns: seq<string>, suffix: string, i: nat) {
    Carries(fqns, suffix, i) && forall j | Carries(fqns, suffix, j) :: j == i
  }

  lemma {:induction false} OneCarrier(fqns: seq<string>, suffix: string, i: nat)
    ensures Carriers(fqns, suffix) == [i] <==> OnlyCarrier(fqns, suffix, i)
  {
    var r := Carriers(fqns, suffix);
    CarriersContents(fqns, suffix);
    assert |r| > 1 ==> r[0] < r[1];
    if OnlyCarrier(fqns, suffix, i) {
      assert i in r;
      forall k | 0 <= k < |r|
        ensures r[k] == i
      {
        assert r[k] in r;
      }
    }
    if r == [i] {
      assert i in r;
      forall j | Carries(fqns, suffix, j)
        ensures j == i
      {
        assert j in r;
      }
    }
  }

  lemma AmongEarlier(fqns: seq<string>, pick: string, i: nat, j: nat)
    requires i < j <= |fqns| && fqns[i] == pick
    ensures pick in fqns[..j]
  {
    assert fqns[..j][i] == pick;
  }

  /** A candidate is selected exactly when it is the first with that very name, or the only one the suffix fits. */
  lemma SelectsExactly(pick: string, fqns: seq<string>, i: nat)
    ensures MatchPick(pick, fqns) == Selected(i)
       <==> FirstOf(fqns, pick, i) || (pick !in fqns && OnlyCarrier(fqns, pick, i))
  {
    var exact := Position(pick, fqns);
    if exact == |fqns| {
      assert fqns[..exact] == fqns;
      OneCarrier(fqns, pick, i);
    } else {
      assert fqns[exact] in fqns;
      if i < |fqns| && fqns[i] == pick && i != exact {
        AmongEarlier(fqns, pick, if i < exact then i else exact, if i < exact then exact else i);
      }
    }
  }

  /** Several candidates are listed exactly when none has that very name and the suffix fits all of them and no other. */
  lemma ListsExactly(pick: string, fqns: seq<string>)
    ensures MatchPick(pick, fqns).Ambiguous?
       <==> pick !in fqns && exists i, j :: i < j && Carries(fqns, pick, i) && Carries(fqns, pick, j)
    ensures MatchPick(pick, fqns).Ambiguous? ==>
              forall i: nat :: i in MatchPick(pick, fqns).indices <==> Carries(fqns, pick, i)
    ensures MatchPick(pick, fqns).Missed? <==> forall i: nat :: !Carries(fqns, pick, i)
  {
    var exact := Position(pick, fqns);
    var r := Carriers(fqns, pick);
    CarriersContents(fqns, pick);
    if exact == |fqns| {
      assert fqns[..exact] == fqns;
      if |r| > 1 {
        assert r[0] in r && r[1] in r && r[0] < r[1];
      }
      if |r| == 1 {
        OneCarrier(fqns, pick, r[0]);
      }
      if |r| == 1 || |r| > 1 {
        assert Carries(fqns, pick, r[0]) by { assert r[0] in r; }
      }
    } else {
      assert Carries(fqns, pick, exact);
    }
  }

  // ----- segments

  function Split(text: string): (r: seq<string>)
    ensures r != []
  {
    if text == "" then [""]
    else
      var rest := Split(text[1..]);
      if text[0] == '.' then [""] + rest else [[text[0]] + rest[0]] + rest[1..]
  }

  /** A text without a dot is one segment. */
  lemma {:induction false} SplitOne(text: string)
    requires '.' !in text
    ensures Split(text) == [text]
  {
    if text != "" {
      SplitOne(text[1..]);
      assert text == [text[0]] + text[1..];
    }
  }

  /** Texts joined by a dot split into the segments of both. */
  lemma {:induction false} SplitAppends(a: string, b: string)
    ensures Split(a + "." + b) == Split(a) + Split(b)
  {
    var whole := a + "." + b;
    if a == "" {
      assert whole[1..] == b;
    } else {
      assert whole[1..] == a[1..] + "." + b;
      SplitAppends(a[1..], b);
    }
  }

  function Join(segments: seq<string>): string
    requires segments != []
  {
    if |segments| == 1 then segments[0] else segments[0] + "." + Join(segments[1..])
  }

  function SuffixAt(text: string, start: nat): string
    requires start < |Split(text)|
  {
    Join(Split(text)[start..])
  }

  lemma {:induction false} JoinSplit(text: string)
    ensures Join(Split(text)) == text
  {
    if text != "" {
      var rest := Split(text[1..]);
      JoinSplit(text[1..]);
      assert ([""] + rest)[1..] == rest;
      assert ([[text[0]] + rest[0]] + rest[1..])[1..] == rest[1..];
      assert text == [text[0]] + text[1..];
    }
  }

  lemma {:induction false} NextSuffix(segments: seq<string>, start: nat)
    requires start + 1 < |segments|
    ensures Join(segments[start..]) == segments[start] + "." + Join(segments[start + 1..])
  {
    assert segments[start..][1..] == segments[start + 1..];
  }

  lemma {:induction false} SuffixOfSuffix(a: string, b: string, c: string)
    requires IsDotSuffix(a, b) && IsDotSuffix(b, c)
    ensures IsDotSuffix(a, c)
  {
    if a != b && b != c {
      assert a[|a| - |c|..] == a[|a| - |b|..][|b| - |c|..];
      assert a[|a| - |c| - 1] == a[|a| - |b|..][|b| - |c| - 1];
    }
  }

  /** Every run of trailing segments is a dot suffix. */
  lemma {:induction false} SegmentSuffix(text: string, start: nat)
    requires start < |Split(text)|
    ensures IsDotSuffix(text, SuffixAt(text, start))
    decreases start
  {
    var segments := Split(text);
    if start == 0 {
      JoinSplit(text);
      assert segments[0..] == segments;
    } else {
      SegmentSuffix(text, start - 1);
      NextSuffix(segments, start - 1);
      var longer, shorter := SuffixAt(text, start - 1), SuffixAt(text, start);
      var head := segments[start - 1];
      assert longer == head + "." + shorter;
      assert longer[|longer| - |shorter|..] == shorter;
      assert longer[|head|] == '.';
      SuffixOfSuffix(text, longer, shorter);
    }
  }

  /** And every dot suffix is a run of trailing segments. */
  lemma {:induction false} DotSuffixIsSegments(text: string, suffix: string) returns (start: nat)
    requires IsDotSuffix(text, suffix)
    ensures start < |Split(text)| && SuffixAt(text, start) == suffix
  {
    if text == suffix {
      start := 0;
      JoinSplit(text);
      assert Split(text)[0..] == Split(text);
    } else {
      var rest := text[1..];
      assert rest[|rest| - |suffix|..] == suffix;
      if |suffix| + 1 == |text| {
        assert rest == suffix;
        JoinSplit(rest);
        start := 1;
        assert Split(text)[1..] == Split(rest);
      } else {
        assert rest[|rest| - |suffix| - 1] == '.';
        var k := DotSuffixIsSegments(rest, suffix);
        start := DroppedFirst(text, rest, suffix, k);
      }
    }
  }

  /** Segments after the first are not touched by what comes before; the first is never a proper suffix's own. */
  lemma {:induction false} DroppedFirst(text: string, rest: string, suffix: string, k: nat) returns (start: nat)
    requires text != "" && rest == text[1..] && k < |Split(rest)| && SuffixAt(rest, k) == suffix && |suffix| < |rest|
    ensures start < |Split(text)| && SuffixAt(text, start) == suffix
  {
    assert SuffixAt(rest, 0) == rest by {
      JoinSplit(rest);
      assert Split(rest)[0..] == Split(rest);
    }
    if text[0] == '.' {
      start := k + 1;
      assert Split(text)[start..] == Split(rest)[k..];
    } else {
      start := k;
      assert Split(text)[start..] == Split(rest)[k..];
    }
  }

  lemma {:induction false} LaterIsShorter(text: string, i: nat, j: nat)
    requires i < j < |Split(text)|
    ensures |SuffixAt(text, j)| < |SuffixAt(text, i)|
    decreases j
  {
    NextSuffix(Split(text), j - 1);
    if i < j - 1 {
      LaterIsShorter(text, i, j - 1);
    }
  }

  // ----- the hint

  function ShortestFrom(target: string, fqns: seq<string>, start: nat): string
    requires start <= |Split(target)|
  {
    if start == 0 then target
    else
      var suffix := SuffixAt(target, start - 1);
      if |Carriers(fqns, suffix)| == 1 then suffix else ShortestFrom(target, fqns, start - 1)
  }

  /** The least a caller must type to reach the target, found walking up from its last segment. */
  function ShortestUniqueSuffix(target: string, fqns: seq<string>): string {
    ShortestFrom(target, fqns, |Split(target)|)
  }

  ghost predicate Unique(fqns: seq<string>, suffix: string) {
    exists i: nat :: OnlyCarrier(fqns, suffix, i)
  }

  lemma UniqueIsOneCarrier(fqns: seq<string>, suffix: string)
    ensures Unique(fqns, suffix) <==> |Carriers(fqns, suffix)| == 1
  {
    if Unique(fqns, suffix) {
      var i: nat :| OnlyCarrier(fqns, suffix, i);
      OneCarrier(fqns, suffix, i);
    }
    if |Carriers(fqns, suffix)| == 1 {
      OneCarrier(fqns, suffix, Carriers(fqns, suffix)[0]);
    }
  }

  lemma {:induction false} ShortestFromIsUnique(target: string, fqns: seq<string>, start: nat)
    requires start <= |Split(target)|
    requires forall k | start <= k < |Split(target)| :: !Unique(fqns, SuffixAt(target, k))
    ensures var r := ShortestFrom(target, fqns, start);
            || (r == target && forall k | 0 <= k < |Split(target)| :: !Unique(fqns, SuffixAt(target, k)))
            || exists k :: 0 <= k < |Split(target)| && r == SuffixAt(target, k) && Unique(fqns, r)
                           && forall j | k < j < |Split(target)| :: !Unique(fqns, SuffixAt(target, j))
  {
    if start > 0 {
      UniqueIsOneCarrier(fqns, SuffixAt(target, start - 1));
      if |Carriers(fqns, SuffixAt(target, start - 1))| != 1 {
        ShortestFromIsUnique(target, fqns, start - 1);
      }
    }
  }

  /** The hint is a dot suffix of the target; no shorter one is unique, and only when none at all is, it need not be. */
  lemma NoShorterSuffixIsUnique(target: string, fqns: seq<string>, suffix: string)
    requires IsDotSuffix(target, suffix)
    ensures IsDotSuffix(target, ShortestUniqueSuffix(target, fqns))
    ensures Unique(fqns, suffix) ==>
              |suffix| >= |ShortestUniqueSuffix(target, fqns)| && Unique(fqns, ShortestUniqueSuffix(target, fqns))
  {
    var r := ShortestUniqueSuffix(target, fqns);
    ShortestFromIsUnique(target, fqns, |Split(target)|);
    var at := DotSuffixIsSegments(target, suffix);
    if k :| 0 <= k < |Split(target)| && r == SuffixAt(target, k) && Unique(fqns, r)
            && forall j | k < j < |Split(target)| :: !Unique(fqns, SuffixAt(target, j)) {
      SegmentSuffix(target, k);
      if at < k {
        LaterIsShorter(target, at, k);
      }
    }
  }

  /** Whatever the candidates, duplicates and suffixes of each other included, the hint for one of them picks that one. */
  lemma HintPicksItsTarget(target: string, fqns: seq<string>) returns (i: nat)
    requires target in fqns
    ensures i < |fqns| && MatchPick(ShortestUniqueSuffix(target, fqns), fqns) == Selected(i) && fqns[i] == target
  {
    var hint := ShortestUniqueSuffix(target, fqns);
    ShortestFromIsUnique(target, fqns, |Split(target)|);
    if hint == target {
      i := Position(hint, fqns);
      assert fqns[..|fqns|] == fqns;
    } else {
      var only: nat :| OnlyCarrier(fqns, hint, only);
      var t: nat :| t < |fqns| && fqns[t] == target;
      NoShorterSuffixIsUnique(target, fqns, target);
      assert Carries(fqns, hint, t);
      i := only;
      var exact := Position(hint, fqns);
      if exact < |fqns| {
        assert Carries(fqns, hint, exact);
      } else {
        OneCarrier(fqns, hint, only);
      }
    }
  }
}
