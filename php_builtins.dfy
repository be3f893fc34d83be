/** The few PHP built-ins the dump command relies on, stated as pure functions:
    truthiness (`empty`, `!`), `pathinfo(..., PATHINFO_EXTENSION)`, `explode`
    with its inverse `implode`, decimal rendering of integers, and the
    `Y-m-d-His` date format the default dump name uses. */
module PhpBuiltins {

  datatype Option<+T> = None | Some(value: T)

  // ---------------------------------------------------------------------------
  // Truthiness

  /** A PHP string is falsy exactly when it is "" or "0". */
  predicate TruthyString(s: string) {
    s != "" && s != "0"
  }

  /** Truthiness of a value that is either null or a string (what a console
      argument or a value-required option yields); `empty(v)` is its negation. */
  predicate Truthy(v: Option<string>) {
    v.Some? && TruthyString(v.value)
  }

  // ---------------------------------------------------------------------------
  // Searching a string for a character

  /** The position of the last occurrence of `c` in `s`, if any. */
  function LastIndexOf(s: string, c: char): (r: Option<nat>)
    ensures r.Some? ==> r.value < |s|
  {
    if |s| == 0 then None
    else if s[|s| - 1] == c then Some(|s| - 1)
    else LastIndexOf(s[..|s| - 1], c)
  }

  /** LastIndexOf finds an occurrence with none after it, or reports that
      there is none. */
  lemma {:induction false} LastIndexOfFacts(s: string, c: char)
    ensures var r := LastIndexOf(s, c);
      && (r.None? ==> forall k :: 0 <= k < |s| ==> s[k] != c)
      && (r.Some? ==> r.value < |s| && s[r.value] == c)
      && (r.Some? ==> forall k :: r.value < k < |s| ==> s[k] != c)
  {
    if |s| > 0 && s[|s| - 1] != c {
      LastIndexOfFacts(s[..|s| - 1], c);
    }
  }

  /** The position of the first occurrence of `c` in `s`, if any. */
  function IndexOf(s: string, c: char): (r: Option<nat>)
    ensures r.None? ==> forall k :: 0 <= k < |s| ==> s[k] != c
    ensures r.Some? ==> r.value < |s| && s[r.value] == c
    ensures r.Some? ==> forall k :: 0 <= k < r.value ==> s[k] != c
  {
    if |s| == 0 then None
    else if s[0] == c then Some(0)
    else match IndexOf(s[1..], c)
      case None => None
      case Some(i) => Some(i + 1)
  }

  /** An occurrence with no earlier occurrence is the first one. */
  lemma IndexOfIs(s: string, c: char, j: nat)
    requires j < |s| && s[j] == c
    requires forall k :: 0 <= k < j ==> s[k] != c
    ensures IndexOf(s, c) == Some(j)
  {
    if j > 0 {
      IndexOfIs(s[1..], c, j - 1);
    }
  }

  // ---------------------------------------------------------------------------
  // pathinfo($path, PATHINFO_EXTENSION) on a '/'-separated path

  /** `path` without the run of '/' it ends with. */
  function TrimTrailingSlashes(path: string): string {
    if |path| > 0 && path[|path| - 1] == '/' then TrimTrailingSlashes(path[..|path| - 1])
    else path
  }

  /** The trimmed path is a prefix that does not end in '/', and only '/'
      was cut off. */
  lemma {:induction false} TrimTrailingSlashesFacts(path: string)
    ensures var t := TrimTrailingSlashes(path);
      && |t| <= |path| && t == path[..|t|]
      && (t == [] || t[|t| - 1] != '/')
      && (forall k :: |t| <= k < |path| ==> path[k] == '/')
  {
    if |path| > 0 && path[|path| - 1] == '/' {
      TrimTrailingSlashesFacts(path[..|path| - 1]);
    }
  }

  /** The part of `t` after its last '/' (all of `t` when it has none). */
  function LastSegment(t: string): string {
    match LastIndexOf(t, '/')
    case None => t
    case Some(i) => t[i + 1..]
  }

  /** The last segment is the longest '/'-free suffix. */
  lemma LastSegmentFacts(t: string)
    ensures var b := LastSegment(t);
      && |b| <= |t| && b == t[|t| - |b|..]
      && (forall k :: 0 <= k < |b| ==> b[k] != '/')
      && (|b| == |t| || t[|t| - |b| - 1] == '/')
  {
    LastIndexOfFacts(t, '/');
  }

  /** PHP's `basename`: the last '/'-free segment once trailing slashes are gone. */
  function Basename(path: string): string {
    LastSegment(TrimTrailingSlashes(path))
  }

  /** The text after the last '.' of a basename; "" when it has no '.'. */
  function AfterLastDot(b: string): string {
    match LastIndexOf(b, '.')
    case None => ""
    case Some(i) => b[i + 1..]
  }

  /** What follows the last dot is the longest '.'-free suffix after a dot;
      it is empty exactly when there is no dot or the text ends in one. */
  lemma AfterLastDotFacts(b: string)
    ensures var e := AfterLastDot(b);
      && (forall k :: 0 <= k < |e| ==> e[k] != '.')
      && (e != "" ==> |e| < |b| && b[|b| - |e| - 1] == '.' && b[|b| - |e|..] == e)
      && (e == "" ==> (forall k :: 0 <= k < |b| ==> b[k] != '.') || b[|b| - 1] == '.')
  {
    LastIndexOfFacts(b, '.');
  }

  /** `pathinfo($path, PATHINFO_EXTENSION)`: the text after the last '.' of the
      basename; "" when the basename has no '.' or ends with one. */
  function Extension(path: string): string {
    AfterLastDot(Basename(path))
  }

  /** A text that can stand as a file extension: non-empty, with neither a
      '.' nor a '/' in it. */
  predicate PlainExtension(c: string) {
    c != "" && forall k :: 0 <= k < |c| ==> c[k] != '.' && c[k] != '/'
  }

  /** Appending "." and a plain extension makes that the path's extension,
      whatever the path looked like before. */
  lemma ExtensionOfAppended(path: string, c: string)
    requires PlainExtension(c)
    ensures Extension(path + "." + c) == c
  {
    AppendedBasename(path, c);
    DotSuffix(Basename(path + "." + c), c);
  }

  /** The basename of `path + "." + c` ends with `"." + c`. */
  lemma AppendedBasename(path: string, c: string)
    requires PlainExtension(c)
    ensures var b := Basename(path + "." + c);
      |b| >= |c| + 1 && b[|b| - |c| - 1..] == "." + c
  {
    var s := path + "." + c;
    assert s[|path|..] == "." + c;
    assert s[|s| - 1] == c[|c| - 1];
    assert TrimTrailingSlashes(s) == s;
    assert forall k :: |path| <= k < |s| ==> s[k] != '/' by {
      forall k | |path| <= k < |s| ensures s[k] != '/' {
        assert s[k] == ("." + c)[k - |path|];
      }
    }
    LastSegmentReachesFree(s, |path|);
    LastSegmentFacts(s);
    var b := LastSegment(s);
    assert b[|b| - |c| - 1..] == s[|path|..];
  }

  /** A text ending in '.' and a plain extension has that extension after
      its last dot. */
  lemma DotSuffix(b: string, c: string)
    requires PlainExtension(c)
    requires |b| >= |c| + 1 && b[|b| - |c| - 1..] == "." + c
    ensures AfterLastDot(b) == c
  {
    var j := |b| - |c| - 1;
    assert b[j] == b[j..][0];
    assert forall k :: j < k < |b| ==> b[k] != '.' by {
      forall k | j < k < |b| ensures b[k] != '.' {
        assert b[k] == b[j..][k - j];
        assert b[k] == c[k - j - 1];
      }
    }
    LastIndexOfIs(b, '.', j);
    assert b[j + 1..] == b[j..][1..];
  }

  /** A path whose characters include no '.' has no extension. */
  lemma NoDotNoExtension(path: string)
    requires forall k :: 0 <= k < |path| ==> path[k] != '.'
    ensures Extension(path) == ""
  {
    var t := TrimTrailingSlashes(path);
    TrimTrailingSlashesFacts(path);
    var b := Basename(path);
    LastSegmentFacts(t);
    AfterLastDotFacts(b);
    assert forall k :: 0 <= k < |b| ==> b[k] == path[|t| - |b| + k];
  }

  /** A non-empty extension is shorter than the path it comes from. */
  lemma ExtensionShorterThanPath(path: string)
    ensures Extension(path) != "" ==> |Extension(path)| < |path|
  {
    TrimTrailingSlashesFacts(path);
    LastSegmentFacts(TrimTrailingSlashes(path));
    AfterLastDotFacts(Basename(path));
  }

  /** A trailing '/' does not change the extension. */
  lemma TrailingSlashIgnored(path: string)
    ensures Extension(path + "/") == Extension(path)
  {
    assert (path + "/")[..|path|] == path;
  }

  /** A path ending in '.' has no extension. */
  lemma TrailingDotNoExtension(path: string)
    requires |path| > 0 && path[|path| - 1] == '.'
    ensures Extension(path) == ""
  {
    assert TrimTrailingSlashes(path) == path;
    LastSegmentReachesFree(path, |path| - 1);
    var b := Basename(path);
    LastSegmentFacts(path);
    assert b[|b| - 1] == '.';
    LastIndexOfIs(b, '.', |b| - 1);
  }

  /** A last segment reaches back at least to the start of any '/'-free tail. */
  lemma LastSegmentReachesFree(t: string, from: nat)
    requires from <= |t|
    requires forall k :: from <= k < |t| ==> t[k] != '/'
    ensures |LastSegment(t)| >= |t| - from
  {
    LastSegmentFacts(t);
  }

  /** An occurrence with no later occurrence is the last one. */
  lemma LastIndexOfIs(s: string, c: char, j: nat)
    requires j < |s| && s[j] == c
    requires forall k :: j < k < |s| ==> s[k] != c
    ensures LastIndexOf(s, c) == Some(j)
  {
    LastIndexOfFacts(s, c);
  }

  // ---------------------------------------------------------------------------
  // explode / implode on a single-character separator

  /** `implode(sep, parts)`: the parts joined with `sep` between neighbours. */
  function Implode(sep: char, parts: seq<string>): string
    requires |parts| >= 1
  {
    if |parts| == 1 then parts[0] else parts[0] + [sep] + Implode(sep, parts[1..])
  }

  /** `explode(sep, s)`: the maximal runs of `s` between occurrences of `sep`.
      Gluing them back with `sep` gives `s` again, and none contains `sep`. */
  function Explode(sep: char, s: string): (parts: seq<string>)
    ensures |parts| >= 1
    ensures forall i, k :: 0 <= i < |parts| && 0 <= k < |parts[i]| ==> parts[i][k] != sep
    ensures Implode(sep, parts) == s
  {
    if s == [] then [""]
    else if s[0] == sep then [""] + Explode(sep, s[1..])
    else
      var rest := Explode(sep, s[1..]);
      [[s[0]] + rest[0]] + rest[1..]
  }

  /** The other direction of the round trip: parts free of `sep` come back
      unchanged from exploding their implosion. */
  lemma {:induction false} ExplodeImplode(sep: char, parts: seq<string>)
    requires |parts| >= 1
    requires forall i, k :: 0 <= i < |parts| && 0 <= k < |parts[i]| ==> parts[i][k] != sep
    ensures Explode(sep, Implode(sep, parts)) == parts
  {
    if |parts| == 1 {
      ExplodeSepFree(sep, parts[0]);
    } else {
      var tail := Implode(sep, parts[1..]);
      ExplodeImplode(sep, parts[1..]);
      ExplodeSepFreeThenSep(sep, parts[0], tail);
    }
  }

  /** A separator-free text explodes to itself. */
  lemma {:induction false} ExplodeSepFree(sep: char, s: string)
    requires forall k :: 0 <= k < |s| ==> s[k] != sep
    ensures Explode(sep, s) == [s]
  {
    if s != [] {
      ExplodeSepFree(sep, s[1..]);
      assert [s[0]] + s[1..] == s;
    }
  }

  /** Exploding `w + sep + t` with a separator-free `w` gives `w` followed by
      the parts of `t`. */
  lemma {:induction false} ExplodeSepFreeThenSep(sep: char, w: string, t: string)
    requires forall k :: 0 <= k < |w| ==> w[k] != sep
    ensures Explode(sep, w + [sep] + t) == [w] + Explode(sep, t)
  {
    if w == [] {
      assert w + [sep] + t == [sep] + t;
      assert ([sep] + t)[1..] == t;
    } else {
      var s := w + [sep] + t;
      assert s[0] == w[0];
      assert s[1..] == w[1..] + [sep] + t;
      ExplodeSepFreeThenSep(sep, w[1..], t);
      assert [w[0]] + w[1..] == w;
    }
  }

  // ---------------------------------------------------------------------------
  // Decimal text of natural numbers

  predicate IsDigit(ch: char) {
    '0' <= ch <= '9'
  }

  predicate AllDigits(s: string) {
    forall k :: 0 <= k < |s| ==> IsDigit(s[k])
  }

  function DigitChar(d: nat): (ch: char)
    requires d < 10
    ensures IsDigit(ch) && ch as int - '0' as int == d
  {
    ('0' as int + d) as char
  }

  function Pow10(w: nat): (p: nat)
    ensures p >= 1
  {
    if w == 0 then 1 else 10 * Pow10(w - 1)
  }

  /** The decimal text of `n` as PHP prints an integer: no sign, no leading zero. */
  function NatToDecimal(n: nat): (s: string)
    ensures |s| >= 1 && AllDigits(s)
    ensures s[0] == '0' ==> n == 0
  {
    if n < 10 then [DigitChar(n)] else NatToDecimal(n / 10) + [DigitChar(n % 10)]
  }

  /** The number a string of digits denotes (reading it back). */
  function DecimalValue(s: string): nat
    requires AllDigits(s)
  {
    if s == [] then 0
    else 10 * DecimalValue(s[..|s| - 1]) + (s[|s| - 1] as int - '0' as int)
  }

  /** Reading the decimal text of `n` gives `n` back. */
  lemma {:induction false} DecimalRoundTrip(n: nat)
    ensures DecimalValue(NatToDecimal(n)) == n
  {
    if n >= 10 {
      var s := NatToDecimal(n);
      assert s[..|s| - 1] == NatToDecimal(n / 10);
      DecimalRoundTrip(n / 10);
    }
  }

  /** The decimal text of `n` fits in `w` places exactly when `n < 10^w`. */
  lemma {:induction false} DecimalLength(n: nat, w: nat)
    requires w >= 1
    ensures |NatToDecimal(n)| <= w <==> n < Pow10(w)
  {
    if n >= 10 {
      if w == 1 {
        assert Pow10(1) == 10;
        assert |NatToDecimal(n / 10)| >= 1;
      } else {
        DecimalLength(n / 10, w - 1);
      }
    }
  }

  /** `n` written with at least `w` digits, padded with leading zeros. */
  function ZeroPad(n: nat, w: nat): (s: string)
    ensures AllDigits(s)
  {
    var d := NatToDecimal(n);
    if |d| >= w then d else seq(w - |d|, _ => '0') + d
  }

  /** Leading zeros do not change the number a digit string denotes. */
  lemma {:induction false} LeadingZeros(z: nat, s: string)
    requires AllDigits(s)
    ensures AllDigits(seq(z, _ => '0') + s)
    ensures DecimalValue(seq(z, _ => '0') + s) == DecimalValue(s)
  {
    var zs: string := seq(z, _ => '0');
    if s == [] {
      assert zs + s == zs;
      LeadingZerosOnly(z);
    } else {
      var init := s[..|s| - 1];
      assert (zs + s)[..|zs + s| - 1] == zs + init;
      LeadingZeros(z, init);
    }
  }

  lemma {:induction false} LeadingZerosOnly(z: nat)
    ensures DecimalValue(seq(z, _ => '0')) == 0
  {
    if z > 0 {
      var zs: string := seq(z, _ => '0');
      assert zs[..z - 1] == seq(z - 1, _ => '0');
      LeadingZerosOnly(z - 1);
    }
  }

  /** For `n < 10^w` the padded text is exactly `w` digits long and denotes `n`. */
  lemma ZeroPadExact(n: nat, w: nat)
    requires w >= 1 && n < Pow10(w)
    ensures |ZeroPad(n, w)| == w
    ensures DecimalValue(ZeroPad(n, w)) == n
  {
    DecimalLength(n, w);
    DecimalRoundTrip(n);
    var d := NatToDecimal(n);
    if |d| < w {
      LeadingZeros(w - |d|, d);
    }
  }

  // ---------------------------------------------------------------------------
  // Date formatting, `format('Y-m-d-His')`

  /** A wall-clock reading, as the clock hands it to the command. */
  datatype Moment = Moment(year: nat, month: nat, day: nat, hour: nat, minute: nat, second: nat)

  predicate ValidMoment(m: Moment) {
    m.year < 10000 && 1 <= m.month <= 12 && 1 <= m.day <= 31
    && m.hour < 24 && m.minute < 60 && m.second < 60
  }

  /** `Y-m-d-His`: four-digit year, then two-digit month, day, hour, minute
      and second, with '-' after the year, the month and the day. */
  function FormatYmdHis(m: Moment): string {
    ZeroPad(m.year, 4) + "-" + ZeroPad(m.month, 2) + "-" + ZeroPad(m.day, 2) + "-"
    + ZeroPad(m.hour, 2) + ZeroPad(m.minute, 2) + ZeroPad(m.second, 2)
  }

  /** The formatted stamp is 17 characters long, has its dashes at 4, 7 and 10,
      and each field can be read back from its digits. */
  lemma FormatYmdHisLayout(m: Moment)
    requires ValidMoment(m)
    ensures var t := FormatYmdHis(m);
      && |t| == 17
      && t[4] == '-' && t[7] == '-' && t[10] == '-'
      && AllDigits(t[0..4]) && DecimalValue(t[0..4]) == m.year
      && AllDigits(t[5..7]) && DecimalValue(t[5..7]) == m.month
      && AllDigits(t[8..10]) && DecimalValue(t[8..10]) == m.day
      && AllDigits(t[11..13]) && DecimalValue(t[11..13]) == m.hour
      && AllDigits(t[13..15]) && DecimalValue(t[13..15]) == m.minute
      && AllDigits(t[15..17]) && DecimalValue(t[15..17]) == m.second
  {
    assert Pow10(2) == 100 && Pow10(4) == 10000;
    var y, mo, d := ZeroPad(m.year, 4), ZeroPad(m.month, 2), ZeroPad(m.day, 2);
    var h, mi, sec := ZeroPad(m.hour, 2), ZeroPad(m.minute, 2), ZeroPad(m.second, 2);
    ZeroPadExact(m.year, 4);
    ZeroPadExact(m.month, 2);
    ZeroPadExact(m.day, 2);
    ZeroPadExact(m.hour, 2);
    ZeroPadExact(m.minute, 2);
    ZeroPadExact(m.second, 2);
    StampLayout(y, mo, d, h, mi, sec);
  }

  /** Where each field sits in `y-mo-d-h mi sec` when the widths are 4 and 2. */
  lemma StampLayout(y: string, mo: string, d: string, h: string, mi: string, sec: string)
    requires |y| == 4 && |mo| == 2 && |d| == 2 && |h| == 2 && |mi| == 2 && |sec| == 2
    ensures var t := y + "-" + mo + "-" + d + "-" + h + mi + sec;
      && |t| == 17 && t[4] == '-' && t[7] == '-' && t[10] == '-'
      && t[0..4] == y && t[5..7] == mo && t[8..10] == d
      && t[11..13] == h && t[13..15] == mi && t[15..17] == sec
  {
    var date := y + "-" + mo + "-" + d;
    var time := h + mi + sec;
    var t := y + "-" + mo + "-" + d + "-" + h + mi + sec;
    assert t == date + "-" + time;
    FieldsAt(y, "-", mo);
    FieldsAt(date + "-", h, mi + sec);
    assert time == h + (mi + sec);
    FieldsAt(date + "-" + h, mi, sec);
    assert date + "-" + time == date + "-" + h + mi + sec;
    assert date == y + "-" + mo + "-" + d;
    FieldsAt(y + "-" + mo, "-", d);
    assert t[..10] == date;
    assert t[0..4] == date[0..4] && t[5..7] == date[5..7] && t[8..10] == date[8..10];
  }

  /** In `a + b + c` the middle part sits right after `a`. */
  lemma FieldsAt(a: string, b: string, c: string)
    ensures (a + b + c)[..|a|] == a
    ensures (a + b + c)[|a|..|a| + |b|] == b
    ensures (a + b + c)[|a| + |b|..] == c
  {
  }
}
