/**
 * The JNI string predicates of waf's Java demo
 * (demos/jni/src/jni/source/StringUtils.c): isAlpha and isEmpty walk a
 * pointer backwards from the end of the string to its start, clearing a
 * result flag when a character fails the C-locale class test. A null Java
 * string is None; the UTF-8 marshalling of the JNI calls is not modelled,
 * and characters are classified as in the "C" locale.
 */
module StringUtils {
  import opened Common

  /** isalpha in the "C" locale. */
  predicate IsCAlpha(c: char) {
    ('a' <= c <= 'z') || ('A' <= c <= 'Z')
  }

  /** isspace in the "C" locale: space, \t, \n, \v, \f, \r. */
  predicate IsCSpace(c: char) {
    c == ' ' || c == '\t' || c == '\n' || c == '\U{B}' || c == '\U{C}' || c == '\r'
  }

  predicate AllAlpha(s: string) {
    forall i :: 0 <= i < |s| ==> IsCAlpha(s[i])
  }

  predicate AllSpace(s: string) {
    forall i :: 0 <= i < |s| ==> IsCSpace(s[i])
  }

  /**
   * The offsets, relative to the start of the string, that the do-while
   * loop dereferences when the pointer starts at offset `sp`: it steps
   * back, reads, and repeats while the pointer is past the start.
   */
  function DoWhileReads(sp: int): (offsets: seq<int>)
    ensures offsets != [] && offsets[0] == sp - 1
    decreases if sp > 0 then sp else 0
  {
    var p := sp - 1;
    [p] + (if p > 0 then DoWhileReads(p) else [])
  }

  /** For a string of n > 0 characters the loop reads offsets n-1 down to 0, each once, all inside the string. */
  lemma {:induction false} DoWhileReadsInside(n: int)
    requires n > 0
    ensures |DoWhileReads(n)| == n
    ensures forall k :: 0 <= k < n ==> DoWhileReads(n)[k] == n - 1 - k
    decreases n
  {
    if n > 1 {
      DoWhileReadsInside(n - 1);
    }
  }

  /** For the empty string, strlen gives 0 and the first read is at offset -1, one character before the string. */
  lemma DoWhileReadsBeforeEmpty(s: string)
    requires s == []
    ensures DoWhileReads(|s|) == [-1]
  {
  }

  /**
   * Java_StringUtils_isAlpha: false for a null string; otherwise true
   * exactly when the string is non-empty and every character is a letter.
   * The emptiness test guards the loop, so an empty string is answered
   * without the read before its start.
   */
  method IsAlpha(jStr: Option<string>) returns (ret: bool)
    ensures ret <==> jStr.Some? && jStr.value != [] && AllAlpha(jStr.value)
  {
    if jStr.None? {
      return false;
    }
    var s := jStr.value;
    ret := true;
    var sp := |s|;
    if sp <= 0 {
      ret := false;
    }
    while sp > 0
      invariant 0 <= sp <= |s|
      invariant ret <==> s != [] && forall i :: sp <= i < |s| ==> IsCAlpha(s[i])
    {
      sp := sp - 1;
      if !IsCAlpha(s[sp]) {
        ret := false;
      }
    }
  }

  /**
   * Java_StringUtils_isEmpty: true for a null string; otherwise true
   * exactly when every character is white space (so also for "").
   */
  method IsEmpty(jStr: Option<string>) returns (ret: bool)
    ensures ret <==> jStr.None? || AllSpace(jStr.value)
  {
    if jStr.None? {
      return true;
    }
    var s := jStr.value;
    ret := true;
    var sp := |s|;
    while sp > 0
      invariant 0 <= sp <= |s|
      invariant ret <==> forall i :: sp <= i < |s| ==> IsCSpace(s[i])
    {
      sp := sp - 1;
      if !IsCSpace(s[sp]) {
        ret := false;
      }
    }
  }

  /** No character is both a letter and white space, so no non-empty string passes both tests. */
  lemma AlphaAndBlankExclusive(s: string)
    requires s != []
    ensures !(AllAlpha(s) && AllSpace(s))
  {
    assert IsCAlpha(s[0]) ==> !IsCSpace(s[0]);
  }
}
