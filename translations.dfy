/**
 * The completeness measure of BirdFont's translation release script
 * (scripts/complete_translations.py, `completeness`): a line-by-line pass
 * over a PO file that counts translated and untranslated entries and
 * returns the translated share in percent. Reading the file is I/O: its
 * lines, as readlines returns them (each with its line break), are the
 * input. Counts are exact and the percentage is a real number.
 */
module Translations {
  import opened PyStrings

  const Hash := "#"
  const MsgId := "msgid"
  const MsgStr := "msgstr"
  const Quote := "\""
  /** The text the script compares `original` with; `original` only ever holds a msgid line. */
  const EmptyMsgStr := "msgstr \"\""

  /** The loop's variables: the two counters, the text gathered for the current entry, and the msgid line that opened it. */
  datatype Counter = Counter(translated: nat, untranslated: nat, msg: string, original: string)

  const Start := Counter(0, 0, "", "")

  /** Every character is white space, which is when `strip()` leaves "" (see Strip's contract). */
  predicate Blank(s: string) {
    forall i :: 0 <= i < |s| ==> IsSpace(s[i])
  }

  /** The line is exactly `msgstr ""`. */
  predicate IsEmptyMsgStr(o: string) {
    |o| == |EmptyMsgStr| && o == EmptyMsgStr
  }

  /** Comment lines and white-space-only lines are skipped. */
  predicate Ignored(line: string) {
    StartsWith(line, Hash) || Blank(line)
  }

  /** A line that adds text to the current entry. */
  predicate IsMessageLine(line: string) {
    StartsWith(line, MsgStr) || StartsWith(line, Quote)
  }

  /** The text a msgstr or continuation line contributes: the line with every "msgstr" and every '"' removed. */
  function MessageText(line: string): string {
    Replace(Replace(line, MsgStr, ""), Quote, "")
  }

  /** The entry just closed is untranslated: its text strips to nothing and it had a non-blank msgid line. */
  predicate EntryUntranslated(c: Counter) {
    Blank(c.msg) && !Blank(c.original)
  }

  /** The counting done for the entry gathered so far when a msgid line closes it; a `msgstr ""` original is never counted. */
  function Counted(c: Counter): (d: Counter)
    ensures d.msg == c.msg && d.original == c.original
    ensures d.translated + d.untranslated == c.translated + c.untranslated + (if IsEmptyMsgStr(c.original) then 0 else 1)
  {
    if IsEmptyMsgStr(c.original) then c
    else if EntryUntranslated(c) then c.(untranslated := c.untranslated + 1)
    else c.(translated := c.translated + 1)
  }

  /** A msgid line closes the current entry, counting it, and opens a new one. */
  function CloseEntry(c: Counter, line: string): (d: Counter)
    ensures d.original == line && d.msg == ""
  {
    Counted(c).(original := line, msg := "")
  }

  /** One iteration of the loop over lines. */
  function Step(c: Counter, line: string): Counter {
    if Ignored(line) then c
    else
      var entry := if StartsWith(line, MsgId) then CloseEntry(c, line) else c;
      if IsMessageLine(line) then entry.(msg := entry.msg + MessageText(line)) else entry
  }

  /** The loop's state after the given lines. */
  function Scan(lines: seq<string>): Counter {
    if lines == [] then Start else Step(Scan(lines[..|lines| - 1]), lines[|lines| - 1])
  }

  /** The final entry as the script counts it: untranslated only when no text at all was gathered for it. */
  function Finish(c: Counter): (d: Counter) {
    if |c.msg| == 0 && |c.original| != 0 then c.(untranslated := c.untranslated + 1)
    else c.(translated := c.translated + 1)
  }

  /** translated / (translated + untranslated) * 100, or 0 when nothing was counted. */
  function Percent(c: Counter): real {
    var total := c.translated + c.untranslated;
    if total == 0 then 0.0 else (c.translated as real) / (total as real) * 100.0
  }

  /** completeness(pofile) on the file's lines, as the script computes it. */
  function CompletenessOf(lines: seq<string>): real {
    Percent(Finish(Scan(lines)))
  }

  /** The counting done when a msgid line closes the entry gathered so far. */
  method CountEntry(translated: nat, untranslated: nat, msg: string, original: string)
    returns (translated': nat, untranslated': nat)
    ensures Counter(translated', untranslated', msg, original) == Counted(Counter(translated, untranslated, msg, original))
  {
    translated', untranslated' := translated, untranslated;
    ghost var c := Counter(translated, untranslated, msg, original);
    if original != EmptyMsgStr {
      assert !IsEmptyMsgStr(original);
      if Strip(msg) == "" && Strip(original) != "" {
        assert EntryUntranslated(c);
        untranslated' := untranslated + 1;
      } else {
        assert !EntryUntranslated(c);
        translated' := translated + 1;
      }
    } else {
      assert IsEmptyMsgStr(original);
    }
  }

  /** The body of the loop of `completeness` for one line, on its four variables. */
  method ReadLine(translated: nat, untranslated: nat, msg: string, original: string, line: string)
    returns (translated': nat, untranslated': nat, msg': string, original': string)
    ensures Counter(translated', untranslated', msg', original') ==
      Step(Counter(translated, untranslated, msg, original), line)
  {
    translated', untranslated', msg', original' := translated, untranslated, msg, original;
    if StartsWith(line, Hash) {
      return;
    }
    if Strip(line) == "" {
      return;
    }
    assert !Ignored(line);
    if StartsWith(line, MsgId) {
      translated', untranslated' := CountEntry(translated, untranslated, msg, original);
      original' := line;
      msg' := "";
    }
    ghost var entry := Counter(translated', untranslated', msg', original');
    if StartsWith(line, MsgStr) || StartsWith(line, Quote) {
      msg' := msg' + MessageText(line);
      assert Counter(translated', untranslated', msg', original') == entry.(msg := entry.msg + MessageText(line));
    }
  }

  /** `completeness`: the loop over lines, the final entry, and the share in percent. */
  method Completeness(content: seq<string>) returns (r: real)
    ensures r == CompletenessOf(content)
    ensures 0.0 <= r <= 100.0
  {
    var translated: nat := 0;
    var untranslated: nat := 0;
    var msg := "";
    var original := "";
    for k := 0 to |content|
      invariant Counter(translated, untranslated, msg, original) == Scan(content[..k])
    {
      assert content[..k + 1][..k] == content[..k];
      translated, untranslated, msg, original := ReadLine(translated, untranslated, msg, original, content[k]);
    }
    assert content[..|content|] == content;
    if msg == "" && original != "" {
      untranslated := untranslated + 1;
    } else {
      translated := translated + 1;
    }
    var total := translated + untranslated;
    if total == 0 {
      return 0.0;
    }
    r := (translated as real) / (total as real) * 100.0;
    PercentInRange(Finish(Scan(content)));
  }

  /** The share lies between 0 and 100. */
  lemma PercentInRange(c: Counter)
    ensures 0.0 <= Percent(c) <= 100.0
  {
    var total := c.translated + c.untranslated;
    if total > 0 {
      ShareBounds(c.translated as real, c.untranslated as real);
    }
  }

  /** A part of a positive whole is between none and all of it. */
  lemma ShareBounds(t: real, u: real)
    requires 0.0 <= t && 0.0 <= u && 0.0 < t + u
    ensures 0.0 <= t / (t + u) <= 1.0
  {
    var q := t / (t + u);
    assert q * (t + u) == t;
    assert (1.0 - q) * (t + u) == u;
  }

  /** Comments and blank lines change no counter and no gathered text. */
  lemma IgnoredLineChangesNothing(c: Counter, line: string)
    requires Ignored(line)
    ensures Step(c, line) == c
  {
  }

  lemma MsgIdIsNoMessageLine(line: string)
    requires StartsWith(line, MsgId)
    ensures !IsMessageLine(line)
  {
    assert line[..|MsgId|] == MsgId;
    assert line[3] == MsgId[3] && MsgId[3] != MsgStr[3];
    if |line| >= |MsgStr| {
      assert line[..|MsgStr|][3] == line[3];
    }
    assert line[..|Quote|][0] == line[0] == MsgId[0] != Quote[0];
  }

  /**
   * A msgid line closes the entry before it: that entry is counted as
   * untranslated when its text strips to nothing and its msgid line is not
   * blank, and as translated otherwise; the new entry starts with no text.
   */
  lemma MsgIdClosesEntry(c: Counter, line: string)
    requires !Ignored(line) && StartsWith(line, MsgId)
    requires !IsEmptyMsgStr(c.original)
    ensures var d := Step(c, line);
      && d.original == line && d.msg == ""
      && (EntryUntranslated(c) ==> d.untranslated == c.untranslated + 1 && d.translated == c.translated)
      && (!EntryUntranslated(c) ==> d.translated == c.translated + 1 && d.untranslated == c.untranslated)
  {
    MsgIdIsNoMessageLine(line);
  }

  /** Before any msgid, `original` is "", so the first msgid line always counts one translated entry. */
  lemma FirstMsgIdCountsTranslated(line: string)
    requires !Ignored(line) && StartsWith(line, MsgId)
    ensures Step(Start, line).translated == 1 && Step(Start, line).untranslated == 0
  {
    MsgIdIsNoMessageLine(line);
    assert |Start.original| == 0 < |EmptyMsgStr|;
  }

  /** A msgstr or continuation line adds its text, without "msgstr" and quotes, and counts nothing. */
  lemma MessageLineAppends(c: Counter, line: string)
    requires !Ignored(line) && IsMessageLine(line)
    ensures Step(c, line) == c.(msg := c.msg + MessageText(line))
  {
    if StartsWith(line, MsgId) {
      MsgIdIsNoMessageLine(line);
    }
  }

  /** Removing a one-character pattern leaves no occurrence of that character. */
  lemma {:induction false} ReplaceRemovesChar(s: string, c: char)
    ensures c !in Replace(s, [c], "")
    decreases |s|
  {
    if |s| >= 1 {
      ReplaceRemovesChar(s[1..], c);
      if s[..1] == [c] {
        assert Replace(s, [c], "") == Replace(s[1..], [c], "");
      } else {
        assert s[0] != c;
        assert Replace(s, [c], "") == [s[0]] + Replace(s[1..], [c], "");
      }
    }
  }

  /** The gathered text never holds a quote character. */
  lemma MessageTextHasNoQuote(line: string)
    ensures '"' !in MessageText(line)
  {
    ReplaceRemovesChar(Replace(line, MsgStr, ""), '"');
  }

  /**
   * `original` is always "" or a msgid line, so it never equals
   * `msgstr ""` and the guard before the counting is always true.
   */
  lemma {:induction false} OriginalIsMsgIdLine(lines: seq<string>)
    ensures |Scan(lines).original| == 0 || StartsWith(Scan(lines).original, MsgId)
    ensures !IsEmptyMsgStr(Scan(lines).original)
    decreases |lines|
  {
    if lines != [] {
      OriginalIsMsgIdLine(lines[..|lines| - 1]);
    }
    var o := Scan(lines).original;
    if StartsWith(o, MsgId) && |o| == |EmptyMsgStr| {
      assert o[3] == o[..|MsgId|][3] == MsgId[3];
      assert MsgId[3] != EmptyMsgStr[3];
    }
  }

  // ---------------------------------------------------------------
  // The final entry
  // ---------------------------------------------------------------

  /**
   * The final entry judged by the same rule as every other one: untranslated
   * when its text strips to nothing and its msgid line is not blank.
   */
  function FinishIntended(c: Counter): Counter {
    if EntryUntranslated(c) then c.(untranslated := c.untranslated + 1)
    else c.(translated := c.translated + 1)
  }

  /** completeness with the final entry counted like the others. */
  function CompletenessIntended(lines: seq<string>): real {
    Percent(FinishIntended(Scan(lines)))
  }

  /** The corrected final count agrees with what the next msgid line would have counted for the same entry. */
  lemma FinishIntendedMatchesClose(lines: seq<string>, next: string)
    ensures var c := Scan(lines);
      FinishIntended(c).translated == CloseEntry(c, next).translated
      && FinishIntended(c).untranslated == CloseEntry(c, next).untranslated
    ensures 0.0 <= CompletenessIntended(lines) <= 100.0
  {
    OriginalIsMsgIdLine(lines);
    PercentInRange(FinishIntended(Scan(lines)));
  }

  /**
   * As written, a final entry whose msgstr is empty still counts as
   * translated: `msgstr ""` contributes " " and the line break, so the
   * gathered text is not exactly "". For the lines `msgid "a"` and
   * `msgstr ""` the script reports 100 (the phantom first count plus this
   * entry); judged like every other entry it is 50.
   */
  lemma FinalEmptyMsgStrCountedTranslated(first: string, second: string)
    requires first == MsgId + " " + Quote + "a" + Quote + "\n"
    requires second == MsgStr + " " + Quote + Quote + "\n"
    ensures CompletenessOf([first, second]) == 100.0
    ensures CompletenessIntended([first, second]) == 50.0
  {
    var lines := [first, second];
    assert lines[..1] == [first] && lines[..1][..0] == [];
    assert StartsWith(first, MsgId) by { assert first[..|MsgId|] == MsgId; }
    KeywordLineNotIgnored(first);
    FirstMsgIdCountsTranslated(first);
    var c1 := Step(Start, first);
    assert c1 == Counter(1, 0, "", first) by { MsgIdIsNoMessageLine(first); }
    assert StartsWith(second, MsgStr) by { assert second[..|MsgStr|] == MsgStr; }
    KeywordLineNotIgnored(second);
    var text := MessageText(second);
    SecondLineText(second);
    MessageLineAppends(c1, second);
    var c2 := Scan(lines);
    assert Scan(lines[..1]) == c1;
    assert c2 == Counter(1, 0, text, first);
    assert |text| != 0;
    assert Blank(text);
  }

  /** A line starting with 'm' (msgid, msgstr) is neither a comment nor blank. */
  lemma KeywordLineNotIgnored(line: string)
    requires |line| > 0 && line[0] == 'm'
    ensures !Ignored(line)
  {
    assert !IsSpace(line[0]);
    assert |Hash| == 1 && Hash[0] != line[0];
    if |line| >= |Hash| {
      assert line[..|Hash|][0] == line[0];
    }
  }

  /** The text of `msgstr ""` and its line break is a space and the line break. */
  lemma SecondLineText(second: string)
    requires second == MsgStr + " " + Quote + Quote + "\n"
    ensures MessageText(second) == " \n"
  {
    var afterMsgStr := " " + Quote + Quote + "\n";
    assert second == MsgStr + afterMsgStr;
    assert Replace(second, MsgStr, "") == Replace(afterMsgStr, MsgStr, "") by {
      assert second[..|MsgStr|] == MsgStr;
      assert second[|MsgStr|..] == afterMsgStr;
    }
    ReplaceAbsent(afterMsgStr, MsgStr, "") by {
      assert !Contains(afterMsgStr, MsgStr) by {
        assert |afterMsgStr| < |MsgStr|;
      }
    }
    var q := Quote;
    assert afterMsgStr == [' '] + (q + (q + "\n"));
    assert Replace(afterMsgStr, q, "") == [' '] + Replace(q + (q + "\n"), q, "");
    assert Replace(q + (q + "\n"), q, "") == Replace(q + "\n", q, "");
    assert Replace(q + "\n", q, "") == Replace("\n", q, "");
    assert Replace("\n", q, "") == "\n";
  }
}
