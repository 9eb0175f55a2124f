/**
 * The Python string and path operations the build scripts and the cache server
 * rely on: strip, split, join, replace, rfind, os.path.basename, os.path.join,
 * ljust, str(int) and int(str). Strings are sequences of characters; only the
 * ASCII whitespace characters count as whitespace.
 */
module PyStrings {
  import opened Common

  /** Python's str.isspace for one ASCII character. */
  predicate IsSpace(c: char) {
    c == ' ' || c == '\t' || c == '\n' || c == '\r' || c == '\U{B}' || c == '\U{C}'
  }

  predicate IsDigit(c: char) {
    '0' <= c <= '9'
  }

  predicate StartsWith(s: string, prefix: string) {
    |prefix| <= |s| && s[..|prefix|] == prefix
  }

  predicate EndsWith(s: string, suffix: string) {
    |suffix| <= |s| && s[|s| - |suffix|..] == suffix
  }

  /** True when `pat` occurs somewhere in `s` (Python's `pat in s`). */
  predicate Contains(s: string, pat: string) {
    exists i :: 0 <= i <= |s| && OccursAt(s, pat, i)
  }

  /** `pat` sits in `s` starting at index `i`. */
  predicate OccursAt(s: string, pat: string, i: int) {
    0 <= i <= |s| - |pat| && s[i..i + |pat|] == pat
  }

  /** str.lstrip(): drop leading whitespace. */
  function LStrip(s: string): (r: string)
    ensures |r| <= |s| && r == s[|s| - |r|..]
    ensures forall i :: 0 <= i < |s| - |r| ==> IsSpace(s[i])
    ensures r == [] || !IsSpace(r[0])
  {
    if s != [] && IsSpace(s[0]) then LStrip(s[1..]) else s
  }

  /** str.rstrip(): drop trailing whitespace. */
  function RStrip(s: string): (r: string)
    ensures |r| <= |s| && r == s[..|r|]
    ensures forall i :: |r| <= i < |s| ==> IsSpace(s[i])
    ensures r == [] || !IsSpace(r[|r| - 1])
  {
    if s != [] && IsSpace(s[|s| - 1]) then RStrip(s[..|s| - 1]) else s
  }

  /** str.strip(): drop whitespace at both ends. */
  function Strip(s: string): (r: string)
    ensures r == [] || (!IsSpace(r[0]) && !IsSpace(r[|r| - 1]))
    ensures (forall i :: 0 <= i < |s| ==> IsSpace(s[i])) <==> r == []
  {
    var l := LStrip(s);
    var r := RStrip(l);
    assert r != [] ==> r[0] == l[0];
    r
  }

  /** sep.join(parts). */
  function Join(parts: seq<string>, sep: string): string
  {
    if |parts| == 0 then ""
    else if |parts| == 1 then parts[0]
    else parts[0] + sep + Join(parts[1..], sep)
  }

  /**
   * str.split(sep) with an explicit one-character separator: the pieces
   * between separators, so that joining them back gives the input.
   */
  function Split(s: string, sep: char): (parts: seq<string>)
    ensures |parts| >= 1
    ensures forall i :: 0 <= i < |parts| ==> sep !in parts[i]
    ensures Join(parts, [sep]) == s
  {
    if s == [] then [""]
    else
      var rest := Split(s[1..], sep);
      if s[0] == sep then [""] + rest
      else [[s[0]] + rest[0]] + rest[1..]
  }

  /** Splitting a string without the separator gives the string itself. */
  lemma {:induction false} SplitWithoutSeparator(s: string, sep: char)
    requires sep !in s
    ensures Split(s, sep) == [s]
  {
    if s != [] {
      SplitWithoutSeparator(s[1..], sep);
    }
  }

  /** The first piece of a split is the text before the first separator. */
  lemma {:induction false} SplitHead(a: string, sep: char, b: string)
    requires sep !in a
    ensures Split(a + [sep] + b, sep) == [a] + Split(b, sep)
  {
    if a == [] {
      assert a + [sep] + b == [sep] + b;
      assert ([sep] + b)[1..] == b;
    } else {
      assert (a + [sep] + b)[1..] == a[1..] + [sep] + b;
      SplitHead(a[1..], sep, b);
      assert [a[0]] + a[1..] == a;
    }
  }

  /** Splitting what Join glued back together gives the pieces again, when none holds the separator. */
  lemma {:induction false} SplitJoin(parts: seq<string>, sep: char)
    requires |parts| >= 1
    requires forall i :: 0 <= i < |parts| ==> sep !in parts[i]
    ensures Split(Join(parts, [sep]), sep) == parts
  {
    if |parts| == 1 {
      SplitWithoutSeparator(parts[0], sep);
    } else {
      SplitJoin(parts[1..], sep);
      SplitHead(parts[0], sep, Join(parts[1..], [sep]));
      assert [parts[0]] + parts[1..] == parts;
    }
  }

  /** str.splitlines on text whose only line break is '\n': the pieces between newlines, without an empty piece after a final newline. */
  function SplitLines(text: string): (lines: seq<string>)
    ensures forall i :: 0 <= i < |lines| ==> '\n' !in lines[i]
  {
    if text == [] then []
    else
      var parts := Split(text, '\n');
      if parts[|parts| - 1] == [] then parts[..|parts| - 1] else parts
  }

  /** The text after the first newline: its lines follow the first one. */
  lemma SplitLinesHead(first: string, rest: string)
    requires '\n' !in first
    ensures SplitLines(first + "\n" + rest) == [first] + SplitLines(rest)
  {
    var text := first + "\n" + rest;
    assert text == first + ['\n'] + rest;
    SplitHead(first, '\n', rest);
    var parts, tail := Split(text, '\n'), Split(rest, '\n');
    assert parts == [first] + tail;
    if rest == [] {
      SplitWithoutSeparator(rest, '\n');
    } else if tail[|tail| - 1] == [] {
      assert parts[..|parts| - 1] == [first] + tail[..|tail| - 1];
    }
  }

  /** Every character of every piece of a split comes from the input. */
  lemma {:induction false} SplitCharsFromInput(s: string, sep: char)
    ensures forall i, j :: 0 <= i < |Split(s, sep)| && 0 <= j < |Split(s, sep)[i]| ==> Split(s, sep)[i][j] in s
  {
    if s != [] {
      SplitCharsFromInput(s[1..], sep);
      var rest := Split(s[1..], sep);
      var parts := Split(s, sep);
      forall i, j | 0 <= i < |parts| && 0 <= j < |parts[i]|
        ensures parts[i][j] in s
      {
        if s[0] == sep {
          if i > 0 {
            assert parts[i] == rest[i - 1];
            assert parts[i][j] in s[1..];
          }
        } else if i == 0 {
          if j > 0 {
            assert parts[0][j] == rest[0][j - 1];
            assert parts[i][j] in s[1..];
          }
        } else {
          assert parts[i] == rest[i];
          assert parts[i][j] in s[1..];
        }
      }
    }
  }

  /**
   * str.replace(pat, rep): every non-overlapping occurrence of `pat`, scanned
   * from the left, becomes `rep`.
   */
  function Replace(s: string, pat: string, rep: string): string
    requires |pat| > 0
    decreases |s|
  {
    if |s| < |pat| then s
    else if s[..|pat|] == pat then rep + Replace(s[|pat|..], pat, rep)
    else [s[0]] + Replace(s[1..], pat, rep)
  }

  /** Replacing a pattern that does not occur leaves the string as it is. */
  lemma {:induction false} ReplaceAbsent(s: string, pat: string, rep: string)
    requires |pat| > 0 && !Contains(s, pat)
    ensures Replace(s, pat, rep) == s
    decreases |s|
  {
    if |s| >= |pat| {
      assert !OccursAt(s, pat, 0);
      assert !Contains(s[1..], pat) by {
        if Contains(s[1..], pat) {
          var i :| 0 <= i <= |s[1..]| && OccursAt(s[1..], pat, i);
          assert s[i + 1..i + 1 + |pat|] == s[1..][i..i + |pat|];
          assert OccursAt(s, pat, i + 1);
        }
      }
      ReplaceAbsent(s[1..], pat, rep);
    }
  }

  /** str.rfind(c): the last index of `c`, or -1. */
  function RFind(s: string, c: char): (r: int)
    ensures -1 <= r < |s|
    ensures r == -1 <==> c !in s
    ensures r >= 0 ==> s[r] == c && forall j :: r < j < |s| ==> s[j] != c
  {
    if s == [] then -1
    else if s[|s| - 1] == c then |s| - 1
    else RFind(s[..|s| - 1], c)
  }

  /** os.path.basename: the text after the last '/', or the whole path. */
  function Basename(p: string): (r: string)
    ensures '/' !in r
    ensures '/' !in p ==> r == p
    ensures EndsWith(p, r)
    ensures |r| < |p| ==> p[|p| - |r| - 1] == '/'
  {
    var k := RFind(p, '/');
    p[k + 1..]
  }

  /** Appending a separator and a plain name: the basename is that name. */
  lemma BasenameOfJoined(dir: string, name: string)
    requires '/' !in name
    ensures Basename(dir + "/" + name) == name
  {
    var p := dir + "/" + name;
    assert p[|dir|] == '/';
    assert forall j :: |dir| < j < |p| ==> p[j] == name[j - |dir| - 1];
    assert RFind(p, '/') == |dir|;
    assert p[|dir| + 1..] == name;
  }

  /** A path that starts at the root. */
  predicate IsAbsolute(p: string) {
    p != [] && p[0] == '/'
  }

  /** A path that ends in a separator. */
  predicate EndsInSlash(p: string) {
    p != [] && p[|p| - 1] == '/'
  }

  /** os.path.join(a, b) on POSIX: an absolute b replaces a; otherwise one '/' is put between them unless a is empty or already ends in one. */
  function PathJoin(a: string, b: string): string {
    if IsAbsolute(b) then b
    else if a == "" || EndsInSlash(a) then a + b
    else a + "/" + b
  }

  /** Joining a relative name keeps both parts, in order. */
  lemma PathJoinKeepsParts(a: string, b: string)
    requires !IsAbsolute(b)
    ensures StartsWith(PathJoin(a, b), a) && EndsWith(PathJoin(a, b), b)
  {
    var r := PathJoin(a, b);
    assert r[..|a|] == a;
    assert r[|r| - |b|..] == b;
  }

  /** str.ljust(n): pad with spaces on the right to at least n characters. */
  function LJust(s: string, n: nat): (r: string)
    ensures |r| == if |s| >= n then |s| else n
    ensures r[..|s|] == s
    ensures forall i :: |s| <= i < |r| ==> r[i] == ' '
  {
    if |s| >= n then s else s + seq(n - |s|, _ => ' ')
  }

  /** Right-padding with spaces is undone by rstrip. */
  lemma {:induction false} RStripPadding(s: string, k: nat)
    requires s == [] || !IsSpace(s[|s| - 1])
    ensures RStrip(s + seq(k, _ => ' ')) == s
  {
    if k > 0 {
      var t := s + seq(k, _ => ' ');
      assert t[..|t| - 1] == s + seq(k - 1, _ => ' ');
      RStripPadding(s, k - 1);
    }
  }

  /** A header padded with ljust is read back by strip, when its text has no whitespace at either end. */
  lemma StripPadded(s: string, n: nat)
    requires s != [] && !IsSpace(s[0]) && !IsSpace(s[|s| - 1])
    ensures Strip(LJust(s, n)) == s
  {
    var padded := LJust(s, n);
    var k := if |s| >= n then 0 else n - |s|;
    assert padded == s + seq(k, _ => ' ');
    assert LStrip(padded) == padded;
    RStripPadding(s, k);
  }

  /** Every character strip keeps was in its input. */
  lemma StripCharsFromInput(s: string)
    ensures forall i :: 0 <= i < |Strip(s)| ==> Strip(s)[i] in s
  {
    var l := LStrip(s);
    var r := RStrip(l);
    assert Strip(s) == r;
    forall i | 0 <= i < |r|
      ensures r[i] in s
    {
      assert r[i] == l[i];
      assert l[i] == s[|s| - |l| + i];
    }
  }

  /** The decimal digit for 0..9. */
  function DigitChar(d: nat): (c: char)
    requires d < 10
    ensures IsDigit(c)
  {
    "0123456789"[d]
  }

  function DigitValue(c: char): (d: nat)
    requires IsDigit(c)
    ensures d < 10
  {
    (c as int) - ('0' as int)
  }

  /** str(n) for a natural number: its decimal digits, without leading zeros. */
  function NatToStr(n: nat): (s: string)
    ensures |s| >= 1
    ensures forall i :: 0 <= i < |s| ==> IsDigit(s[i])
    ensures |s| > 1 ==> s[0] != '0'
  {
    if n < 10 then [DigitChar(n)] else NatToStr(n / 10) + [DigitChar(n % 10)]
  }

  /** str(n) for any integer. */
  function IntToStr(n: int): (s: string)
    ensures |s| >= 1
    ensures n >= 0 ==> forall i :: 0 <= i < |s| ==> IsDigit(s[i])
    ensures n < 0 ==> s[0] == '-' && forall i :: 1 <= i < |s| ==> IsDigit(s[i])
  {
    if n >= 0 then NatToStr(n) else "-" + NatToStr(-n)
  }

  predicate AllDigits(s: string) {
    forall i :: 0 <= i < |s| ==> IsDigit(s[i])
  }

  /** The value of a run of decimal digits. */
  function DigitsValue(s: string): (v: nat)
    requires forall i :: 0 <= i < |s| ==> IsDigit(s[i])
  {
    if s == [] then 0 else DigitsValue(s[..|s| - 1]) * 10 + DigitValue(s[|s| - 1])
  }

  /** Reading back the digits str(n) prints gives n. */
  lemma {:induction false} NatToStrRoundTrip(n: nat)
    ensures DigitsValue(NatToStr(n)) == n
  {
    var s := NatToStr(n);
    if n >= 10 {
      NatToStrRoundTrip(n / 10);
      assert s[..|s| - 1] == NatToStr(n / 10);
      assert DigitValue(s[|s| - 1]) == n % 10 by {
        assert s[|s| - 1] == DigitChar(n % 10);
      }
    } else {
      assert s[..|s| - 1] == [];
      assert DigitValue(DigitChar(n)) == n;
    }
  }

  /** The text int() accepts once stripped: an optional sign, then one or more digits. */
  function ParseSigned(t: string): (r: Option<int>)
    ensures r.Some? ==> t != []
    ensures r.Some? && t[0] != '-' ==> r.value >= 0
  {
    if t == [] then None
    else
      var body := if t[0] == '-' || t[0] == '+' then t[1..] else t;
      if body == [] || !AllDigits(body) then None
      else
        var v: int := DigitsValue(body);
        Some(if t[0] == '-' then -v else v)
  }

  /**
   * Python 2's int(s) for base 10: surrounding whitespace, an optional sign,
   * then one or more digits; anything else raises ValueError (None here).
   */
  function ParseInt(s: string): (r: Option<int>)
    ensures r.Some? ==> Strip(s) != []
  {
    ParseSigned(Strip(s))
  }

  /** The signed digits str(n) prints read back as n. */
  lemma SignedRoundTrip(n: int)
    ensures ParseSigned(IntToStr(n)) == Some(n)
  {
    var s := IntToStr(n);
    var m := if n >= 0 then n else -n;
    NatToStrRoundTrip(m);
    if n < 0 {
      assert s[1..] == NatToStr(m);
    }
  }

  /** str(n) has no whitespace at either end. */
  lemma IntToStrUnpadded(n: int)
    ensures !IsSpace(IntToStr(n)[0]) && !IsSpace(IntToStr(n)[|IntToStr(n)| - 1])
  {
    var s := IntToStr(n);
    if n < 0 {
      assert s[0] == '-';
      assert |s| > 1;
      assert IsDigit(s[|s| - 1]);
    } else {
      assert IsDigit(s[0]) && IsDigit(s[|s| - 1]);
    }
  }

  /** int(str(n)) == n for every integer. */
  lemma IntToStrRoundTrip(n: int)
    ensures ParseInt(IntToStr(n)) == Some(n)
  {
    var s := IntToStr(n);
    IntToStrUnpadded(n);
    assert LStrip(s) == s;
    assert RStrip(s) == s;
    SignedRoundTrip(n);
  }

  /** int() of text without a minus sign is never negative. */
  lemma ParseIntUnsigned(s: string)
    requires '-' !in s
    ensures ParseInt(s).Some? ==> ParseInt(s).value >= 0
  {
    StripCharsFromInput(s);
    var t := Strip(s);
    if t != [] {
      assert t[0] in s;
    }
  }
}
