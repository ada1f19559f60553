/** The version oracle of `src/version.ts`: the dotted-version comparator,
    the outdated check built on a fetched latest version, and the decision to
    show an update notification. The network fetch is not modelled; its result
    arrives as an optional string. */
module Version {
  import opened Wrappers
  import Text
  import opened JsNumber

  /** The record `checkVersion` returns. */
  datatype VersionInfo = VersionInfo(current: string, latest: string, isOutdated: bool)

  /** The update notification `displayVersionNotification` logs. */
  datatype Notice = UpdateAvailable(current: string, latest: string)

  /** One dotted part as the comparator sees it: `parseInt(part, 10) || 0`, so
      `NaN` (no leading digits) counts as 0. */
  function PartValue(part: string): (r: int)
    ensures ParseInt(part).None? ==> r == 0
  {
    ParseInt(part).GetOr(0)
  }

  /** `version.split('.').map(num => parseInt(num, 10))`, with `|| 0` applied. */
  function ParseVersion(version: string): (r: seq<int>)
    ensures |r| >= 1
    ensures '.' !in version ==> r == [PartValue(version)]
  {
    var pieces := Text.Split(version, '.');
    assert '.' !in version ==> pieces == [version] by {
      if '.' !in version { Text.SplitNoSeparator(version, '.'); }
    }
    seq(|pieces|, i requires 0 <= i < |pieces| => PartValue(pieces[i]))
  }

  function Max(a: nat, b: nat): nat
  {
    if a < b then b else a
  }

  /** `parts[i] || 0`: a missing index reads as 0. */
  function PartAt(parts: seq<int>, i: nat): int
  {
    if i < |parts| then parts[i] else 0
  }

  /** The comparator's loop from index `i` onwards: the first unequal pair of
      parts decides, up to the longer length. */
  function CompareFrom(a: seq<int>, b: seq<int>, i: nat): (r: int)
    ensures r == -1 || r == 0 || r == 1
    decreases Max(|a|, |b|) - i
  {
    if i >= Max(|a|, |b|) then 0
    else if PartAt(a, i) > PartAt(b, i) then 1
    else if PartAt(a, i) < PartAt(b, i) then -1
    else CompareFrom(a, b, i + 1)
  }

  /** Compares two parsed versions: 1 if `a` is newer, -1 if older, 0 if equal. */
  function CompareParts(a: seq<int>, b: seq<int>): int
  {
    CompareFrom(a, b, 0)
  }

  /** `compareVersions(v1, v2)`. */
  function CompareVersions(v1: string, v2: string): (r: int)
    ensures r == -1 || r == 0 || r == 1
  {
    CompareParts(ParseVersion(v1), ParseVersion(v2))
  }

  /** The comparator's `for` loop, returning from inside as the source does;
      it computes exactly the recursive definition above. */
  method CompareVersionsLoop(v1: string, v2: string) returns (r: int)
    ensures r == CompareVersions(v1, v2)
  {
    var a := ParseVersion(v1);
    var b := ParseVersion(v2);
    var n := Max(|a|, |b|);
    var i := 0;
    while i < n
      invariant 0 <= i <= n
      invariant CompareFrom(a, b, i) == CompareParts(a, b)
    {
      var x := PartAt(a, i);
      var y := PartAt(b, i);
      if x > y {
        return 1;
      }
      if x < y {
        return -1;
      }
      i := i + 1;
    }
    return 0;
  }

  /** One step of the loop holds at every index, past the end included,
      because every missing part reads as 0. */
  lemma CompareStep(a: seq<int>, b: seq<int>, i: nat)
    ensures CompareFrom(a, b, i) ==
      if PartAt(a, i) > PartAt(b, i) then 1
      else if PartAt(a, i) < PartAt(b, i) then -1
      else CompareFrom(a, b, i + 1)
  {
  }

  /** Equal from `i` on (every index, missing parts read as 0) gives 0. */
  lemma {:induction false} CompareAllEqual(a: seq<int>, b: seq<int>, i: nat)
    requires forall j :: i <= j ==> PartAt(a, j) == PartAt(b, j)
    ensures CompareFrom(a, b, i) == 0
    decreases Max(|a|, |b|) - i
  {
    if i < Max(|a|, |b|) {
      CompareAllEqual(a, b, i + 1);
    }
  }

  /** The first unequal part decides the result; later parts are ignored. */
  lemma {:induction false} CompareFirstDifference(a: seq<int>, b: seq<int>, i: nat, k: nat)
    requires i <= k
    requires forall j :: i <= j < k ==> PartAt(a, j) == PartAt(b, j)
    requires PartAt(a, k) != PartAt(b, k)
    ensures CompareFrom(a, b, i) == if PartAt(a, k) > PartAt(b, k) then 1 else -1
    decreases k - i
  {
    if i < k {
      CompareStep(a, b, i);
      CompareFirstDifference(a, b, i + 1, k);
    } else {
      CompareStep(a, b, i);
    }
  }

  /** A result of 0 means every part is equal once missing parts read as 0. */
  lemma {:induction false} CompareZeroMeansEqual(a: seq<int>, b: seq<int>, i: nat)
    requires CompareFrom(a, b, i) == 0
    ensures forall j :: i <= j ==> PartAt(a, j) == PartAt(b, j)
  {
    forall j | i <= j
      ensures PartAt(a, j) == PartAt(b, j)
    {
      if PartAt(a, j) != PartAt(b, j) {
        var k := FirstDifference(a, b, i, j);
        CompareFirstDifference(a, b, i, k);
      }
    }
  }

  /** The smallest index from `i` on where the parts differ, given one at `j`. */
  lemma {:induction false} FirstDifference(a: seq<int>, b: seq<int>, i: nat, j: nat) returns (k: nat)
    requires i <= j && PartAt(a, j) != PartAt(b, j)
    ensures i <= k <= j && PartAt(a, k) != PartAt(b, k)
    ensures forall m :: i <= m < k ==> PartAt(a, m) == PartAt(b, m)
    decreases j - i
  {
    if PartAt(a, i) != PartAt(b, i) {
      k := i;
    } else {
      k := FirstDifference(a, b, i + 1, j);
    }
  }

  /** Every version compares equal to itself. */
  lemma CompareReflexive(v: string)
    ensures CompareVersions(v, v) == 0
  {
    var a := ParseVersion(v);
    CompareAllEqual(a, a, 0);
  }

  /** Swapping the arguments flips the sign of the result. */
  lemma {:induction false} CompareFromAntisymmetric(a: seq<int>, b: seq<int>, i: nat)
    ensures CompareFrom(a, b, i) == -CompareFrom(b, a, i)
    decreases Max(|a|, |b|) - i
  {
    if i < Max(|a|, |b|) {
      CompareFromAntisymmetric(a, b, i + 1);
    }
  }

  lemma CompareAntisymmetric(v1: string, v2: string)
    ensures CompareVersions(v1, v2) == -CompareVersions(v2, v1)
  {
    CompareFromAntisymmetric(ParseVersion(v1), ParseVersion(v2), 0);
  }

  /** Versions that agree part by part (missing parts read as 0) compare
      alike against every third version. */
  lemma {:induction false} CompareRespectsPadding(a: seq<int>, a': seq<int>, b: seq<int>, i: nat)
    requires forall j :: PartAt(a, j) == PartAt(a', j)
    ensures CompareFrom(a, b, i) == CompareFrom(a', b, i)
    decreases Max(Max(|a|, |a'|), |b|) - i
  {
    CompareStep(a, b, i);
    CompareStep(a', b, i);
    if i < Max(Max(|a|, |a'|), |b|) {
      CompareRespectsPadding(a, a', b, i + 1);
    } else {
      CompareAllEqual(a, b, i);
      CompareAllEqual(a', b, i);
    }
  }

  function Zeros(n: nat): (r: seq<int>)
    ensures |r| == n && forall i :: 0 <= i < n ==> r[i] == 0
  {
    seq(n, _ => 0)
  }

  /** Missing trailing parts count as 0: appending zero parts to either side
      never changes a comparison, so "2.0" and "2.0.0" compare equal. */
  lemma ZeroPadding(a: seq<int>, b: seq<int>, n: nat)
    ensures CompareParts(a + Zeros(n), b) == CompareParts(a, b)
    ensures CompareParts(b, a + Zeros(n)) == CompareParts(b, a)
  {
    assert forall j :: PartAt(a + Zeros(n), j) == PartAt(a, j);
    CompareRespectsPadding(a + Zeros(n), a, b, 0);
    CompareFromAntisymmetric(b, a + Zeros(n), 0);
    CompareFromAntisymmetric(b, a, 0);
  }

  /** The comparator is transitive: it is a total preorder on versions. */
  lemma {:induction false} CompareFromTransitive(a: seq<int>, b: seq<int>, c: seq<int>, i: nat)
    requires CompareFrom(a, b, i) <= 0 && CompareFrom(b, c, i) <= 0
    ensures CompareFrom(a, c, i) <= 0
    decreases Max(Max(|a|, |b|), |c|) - i
  {
    CompareStep(a, b, i);
    CompareStep(b, c, i);
    CompareStep(a, c, i);
    if i < Max(Max(|a|, |b|), |c|) {
      if PartAt(a, i) == PartAt(c, i) {
        CompareFromTransitive(a, b, c, i + 1);
      }
    } else {
      CompareAllEqual(a, c, i);
    }
  }

  lemma CompareTransitive(v1: string, v2: string, v3: string)
    requires CompareVersions(v1, v2) <= 0 && CompareVersions(v2, v3) <= 0
    ensures CompareVersions(v1, v3) <= 0
  {
    CompareFromTransitive(ParseVersion(v1), ParseVersion(v2), ParseVersion(v3), 0);
  }

  /** The dotted rendering of a tuple of natural numbers, e.g. [1, 10, 0]
      renders as "1.10.0". */
  function Render(xs: seq<nat>): string
    requires |xs| >= 1
  {
    Text.Join(seq(|xs|, i requires 0 <= i < |xs| => Decimal(xs[i])), '.')
  }

  lemma RenderTwo(x: nat, y: nat)
    ensures Render([x, y]) == Decimal(x) + "." + Decimal(y)
  {
    var pieces := [Decimal(x), Decimal(y)];
    assert seq(2, i requires 0 <= i < 2 => Decimal([x, y][i])) == pieces;
    assert pieces[1..] == [Decimal(y)];
    assert Text.Join(pieces, '.') == Decimal(x) + ['.'] + Decimal(y);
  }

  lemma RenderThree(x: nat, y: nat, z: nat)
    ensures Render([x, y, z]) == Decimal(x) + "." + Decimal(y) + "." + Decimal(z)
  {
    var pieces := [Decimal(x), Decimal(y), Decimal(z)];
    assert seq(3, i requires 0 <= i < 3 => Decimal([x, y, z][i])) == pieces;
    assert pieces[1..] == [Decimal(y), Decimal(z)];
    assert pieces[1..][1..] == [Decimal(z)];
    assert Text.Join(pieces[1..], '.') == Decimal(y) + ['.'] + Decimal(z);
    assert Text.Join(pieces, '.') == Decimal(x) + ['.'] + (Decimal(y) + ['.'] + Decimal(z));
  }

  /** Parsing a rendered tuple gives the tuple back. */
  lemma ParseRender(xs: seq<nat>)
    requires |xs| >= 1
    ensures ParseVersion(Render(xs)) == xs
  {
    var pieces := seq(|xs|, i requires 0 <= i < |xs| => Decimal(xs[i]));
    assert forall i :: 0 <= i < |pieces| ==> '.' !in pieces[i];
    Text.SplitJoin(pieces, '.');
    forall i | 0 <= i < |xs|
      ensures PartValue(pieces[i]) == xs[i]
    {
      ParseIntDecimal(xs[i], []);
      assert pieces[i] + [] == pieces[i];
    }
  }

  /** Parts are compared as numbers, not as text: rendered tuples compare
      exactly as the tuples do. */
  lemma CompareRendered(xs: seq<nat>, ys: seq<nat>)
    requires |xs| >= 1 && |ys| >= 1
    ensures CompareVersions(Render(xs), Render(ys)) == CompareParts(xs, ys)
  {
    ParseRender(xs);
    ParseRender(ys);
  }

  lemma RenderedOneTenZero()
    ensures Render([1, 10, 0]) == "1.10.0"
  {
    RenderThree(1, 10, 0);
    assert Decimal(10) == "10";
  }

  lemma RenderedOneNineNine()
    ensures Render([1, 9, 9]) == "1.9.9"
  {
    RenderThree(1, 9, 9);
  }

  /** Parts are compared as numbers: "1.10.0" is newer than "1.9.9". */
  lemma NumericNotLexical()
    ensures CompareVersions("1.10.0", "1.9.9") == 1
  {
    RenderedOneTenZero();
    RenderedOneNineNine();
    CompareFirstDifference([1, 10, 0], [1, 9, 9], 0, 1);
    CompareRendered([1, 10, 0], [1, 9, 9]);
  }

  lemma RenderedTwoZero()
    ensures Render([2, 0]) == "2.0"
    ensures Render([2, 0, 0]) == "2.0.0"
  {
    RenderTwo(2, 0);
    RenderThree(2, 0, 0);
  }

  lemma PaddedTwoZero()
    ensures CompareParts([2, 0], [2, 0, 0]) == 0
  {
    assert [2, 0] + Zeros(1) == [2, 0, 0];
    ZeroPadding([2, 0], [2, 0], 1);
    CompareAllEqual([2, 0], [2, 0], 0);
  }

  /** A missing trailing part counts as 0: "2.0" equals "2.0.0". */
  lemma TrailingZeroExample()
    ensures CompareVersions("2.0", "2.0.0") == 0
  {
    RenderedTwoZero();
    PaddedTwoZero();
    CompareRendered([2, 0], [2, 0, 0]);
  }

  /** A number followed by a part with no leading digits parses as the
      number and 0. */
  lemma ParseNumberThenText(n: nat, text: string)
    requires |text| > 0 && '.' !in text
    requires !IsDigit(text[0]) && !IsWhiteSpace(text[0]) && text[0] != '-' && text[0] != '+'
    ensures ParseVersion(Decimal(n) + "." + text) == [n, 0]
  {
    var d := Decimal(n);
    assert '.' !in d by {
      assert forall i :: 0 <= i < |d| ==> IsDigit(d[i]);
    }
    assert Text.Join([d, text], '.') == d + "." + text;
    Text.SplitJoin([d, text], '.');
    ParseIntNoDigits(text);
    ParseIntDecimal(n, []);
    assert d + [] == d;
  }

  lemma RenderedOneZero()
    ensures Render([1, 0]) == "1.0"
    ensures Decimal(1) + "." + "x" == "1.x"
  {
    RenderTwo(1, 0);
  }

  /** A part with no leading digits is `NaN` and so counts as 0:
      "1.x" equals "1.0". */
  lemma NaNPartIsZero()
    ensures CompareVersions("1.x", "1.0") == 0
  {
    RenderedOneZero();
    ParseNumberThenText(1, "x");
    ParseRender([1, 0]);
    CompareAllEqual([1, 0], [1, 0], 0);
  }

  lemma DecimalThreeBeta()
    ensures Decimal(3) + "-beta" == "3-beta"
  {
  }

  /** A part such as "3-beta" reads as its leading number. */
  lemma LeadingNumberPart()
    ensures PartValue("3-beta") == 3
  {
    DecimalThreeBeta();
    ParseIntDecimal(3, "-beta");
  }

  /** `checkVersion`, given the running build's own version and the result of
      the registry fetch (`None` when it failed). A missing or empty latest
      version means "not outdated". */
  function CheckVersion(current: string, fetched: Option<string>): (r: VersionInfo)
    ensures r.current == current
    ensures fetched.None? || fetched.value == "" ==> r.latest == current && !r.isOutdated
    ensures fetched.Some? && fetched.value != "" ==>
      r.latest == fetched.value && (r.isOutdated <==> CompareVersions(current, fetched.value) < 0)
  {
    match fetched
    case None => VersionInfo(current, current, false)
    case Some(latest) =>
      if latest == "" then VersionInfo(current, current, false)
      else VersionInfo(current, latest, CompareVersions(current, latest) < 0)
  }

  /** Outdated means the latest version is strictly newer than the current
      one, and a fetch that returns the current version is never outdated. */
  lemma OutdatedMeansNewer(current: string, fetched: Option<string>)
    ensures CheckVersion(current, fetched).isOutdated ==>
      CompareVersions(CheckVersion(current, fetched).latest, current) == 1
    ensures !CheckVersion(current, Some(current)).isOutdated
  {
    if fetched.Some? && fetched.value != "" {
      CompareAntisymmetric(current, fetched.value);
    }
    CompareReflexive(current);
  }

  /** `displayVersionNotification`: a notice only for an outdated version. */
  function DisplayVersionNotification(info: VersionInfo): (r: Option<Notice>)
    ensures r.Some? <==> info.isOutdated
    ensures r.Some? ==> r.value == UpdateAvailable(info.current, info.latest)
  {
    if !info.isOutdated then None else Some(UpdateAvailable(info.current, info.latest))
  }

  /** A notice produced from a version check always announces a strictly
      newer version. */
  lemma NoticeAnnouncesNewer(current: string, fetched: Option<string>)
    requires DisplayVersionNotification(CheckVersion(current, fetched)).Some?
    ensures var n := DisplayVersionNotification(CheckVersion(current, fetched)).value;
      n.current == current && CompareVersions(n.latest, n.current) == 1
  {
    OutdatedMeansNewer(current, fetched);
  }
}
