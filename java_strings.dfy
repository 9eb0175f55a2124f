/**
 * The few java.lang.String and java.lang.Long operations the Java netcache
 * server relies on: trim(), split(",") and new Long(String), over strings
 * of characters (the server's headers are ASCII).
 */
module JavaStrings {
  import opened Common
  import opened PyStrings

  /** String.trim() removes every leading and trailing character up to U+0020. */
  predicate IsBlank(c: char) {
    c <= ' '
  }

  /** The leading blanks removed. */
  function TrimStart(s: string): (r: string)
    ensures |r| <= |s| && r == s[|s| - |r|..]
    ensures forall i :: 0 <= i < |s| - |r| ==> IsBlank(s[i])
    ensures r == [] || !IsBlank(r[0])
  {
    if s != [] && IsBlank(s[0]) then TrimStart(s[1..]) else s
  }

  /** The trailing blanks removed. */
  function TrimEnd(s: string): (r: string)
    ensures |r| <= |s| && r == s[..|r|]
    ensures forall i :: |r| <= i < |s| ==> IsBlank(s[i])
    ensures r == [] || !IsBlank(r[|r| - 1])
  {
    if s != [] && IsBlank(s[|s| - 1]) then TrimEnd(s[..|s| - 1]) else s
  }

  /** String.trim(): the longest slice of s with no blank at either end. */
  function Trim(s: string): (r: string)
    ensures r == [] || (!IsBlank(r[0]) && !IsBlank(r[|r| - 1]))
    ensures (forall i :: 0 <= i < |s| ==> IsBlank(s[i])) <==> r == []
    ensures |r| <= |s| && forall c :: c in r ==> c in s
  {
    TrimSlice(s);
    TrimEnd(TrimStart(s))
  }

  lemma TrimSlice(s: string)
    ensures var t := TrimStart(s); var r := TrimEnd(t);
      && r == s[|s| - |t|..|s| - |t| + |r|]
      && (r == [] ==> forall i :: 0 <= i < |s| ==> IsBlank(s[i]))
  {
    var t := TrimStart(s);
    var r := TrimEnd(t);
    if r == [] {
      forall i | |s| - |t| <= i < |s|
        ensures IsBlank(s[i])
      {
        assert s[i] == t[i - (|s| - |t|)];
      }
    }
  }

  /** s is t followed by spaces only. */
  predicate PaddedBy(s: string, t: string)
  {
    |t| <= |s| && s[..|t|] == t && forall i :: |t| <= i < |s| ==> s[i] == ' '
  }

  /** Trailing padding with spaces is undone by trim(). */
  lemma TrimPadded(s: string, t: string)
    requires t == [] || (!IsBlank(t[0]) && !IsBlank(t[|t| - 1]))
    requires PaddedBy(s, t)
    ensures Trim(s) == t
  {
    if t != [] {
      assert TrimStart(s) == s;
      TrimEndPadding(s, t);
    }
  }

  lemma {:induction false} TrimEndPadding(s: string, t: string)
    requires t == [] || !IsBlank(t[|t| - 1])
    requires PaddedBy(s, t)
    ensures TrimEnd(s) == t
    decreases |s|
  {
    if |s| > |t| {
      assert IsBlank(s[|s| - 1]);
      var s' := s[..|s| - 1];
      assert s'[..|t|] == t;
      TrimEndPadding(s', t);
    } else {
      assert s == t;
    }
  }

  /** Drop the empty strings at the end of a list, as split(regex) does. */
  function DropTrailingEmpty(parts: seq<string>): (r: seq<string>)
    ensures |r| <= |parts| && r == parts[..|r|]
    ensures forall i :: |r| <= i < |parts| ==> parts[i] == ""
    ensures r == [] || r[|r| - 1] != ""
  {
    if parts != [] && parts[|parts| - 1] == "" then DropTrailingEmpty(parts[..|parts| - 1]) else parts
  }

  /**
   * String.split(","): the pieces between commas, with trailing empty pieces
   * removed; a string without a comma is its own single piece.
   */
  function JavaSplit(s: string): (r: seq<string>)
    ensures forall i :: 0 <= i < |r| ==> ',' !in r[i]
    ensures ',' !in s ==> r == [s]
    ensures ',' in s ==> r == [] || r[|r| - 1] != ""
    ensures ',' in s ==> |r| <= |Split(s, ',')| && r == Split(s, ',')[..|r|]
  {
    if ',' !in s then [s] else DropTrailingEmpty(Split(s, ','))
  }

  /** Fields without commas, the last one not empty, are split back out of their comma-join. */
  lemma JavaSplitJoin(fields: seq<string>)
    requires |fields| >= 1
    requires forall i :: 0 <= i < |fields| ==> ',' !in fields[i]
    requires |fields| == 1 || fields[|fields| - 1] != ""
    ensures JavaSplit(Join(fields, ",")) == fields
  {
    if |fields| == 1 {
      assert Join(fields, ",") == fields[0];
    } else {
      SplitJoin(fields, ',');
      assert Join(fields, ",") == fields[0] + "," + Join(fields[1..], ",");
      assert ',' in Join(fields, ",") by {
        assert Join(fields, ",")[|fields[0]|] == ',';
      }
    }
  }

  /** A string made only of commas splits into nothing. */
  lemma OnlyCommas(n: nat)
    requires n >= 1
    ensures JavaSplit(seq(n, _ => ',')) == []
  {
    var s := seq(n, _ => ',');
    assert s[0] == ',';
    AllCommasSplit(n);
  }

  lemma {:induction false} AllCommasSplit(n: nat)
    ensures Split(seq(n, _ => ','), ',') == seq(n + 1, _ => "")
  {
    if n > 0 {
      var s := seq(n, _ => ',');
      assert s[1..] == seq(n - 1, _ => ',');
      AllCommasSplit(n - 1);
    }
  }

  /** Java's long range. */
  predicate InLong(v: int) {
    -0x8000_0000_0000_0000 <= v < 0x8000_0000_0000_0000
  }

  /**
   * new Long(s): an optional sign then one or more decimal digits, whose
   * value fits a long; anything else throws NumberFormatException (None).
   */
  function ParseLong(s: string): (r: Option<int>)
    ensures r.Some? ==> InLong(r.value) && s != []
    ensures r.Some? && s[0] != '-' ==> r.value >= 0
    ensures r.Some? ==> forall i :: 0 <= i < |s| ==> !IsBlank(s[i])
  {
    var p := ParseSigned(s);
    if p.Some? && InLong(p.value) then
      assert forall i :: 0 <= i < |s| ==> !IsBlank(s[i]) by {
        var body := if s[0] == '-' || s[0] == '+' then s[1..] else s;
        assert AllDigits(body);
        forall i | 0 <= i < |s|
          ensures !IsBlank(s[i])
        {
          if s[0] == '-' || s[0] == '+' {
            if i > 0 {
              assert s[i] == body[i - 1];
            }
          } else {
            assert s[i] == body[i];
          }
        }
      }
      p
    else None
  }

  /** Every long prints and parses back to itself. */
  lemma ParseLongRoundTrip(n: int)
    requires InLong(n)
    ensures ParseLong(IntToStr(n)) == Some(n)
  {
    SignedRoundTrip(n);
  }
}
