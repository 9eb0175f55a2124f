/**
 * The `cbit` file reader of waf's parser kit
 * (build_system_kit/parser/cbdlib.py, `build`). After every comment (from
 * '#' to the end of its line) is removed, each non-empty line is either a
 * `target: source` line, which creates a task generator, or an indented
 * line, which sets the rule of the generator created last. Reading the file
 * is I/O: its text is the input. The generators `bld()` creates are kept as
 * the sequence the build context accumulates, in creation order.
 */
module CbitParser {
  import opened Common
  import opened PyStrings

  /** The attributes `build` sets on a task generator; None for one it never sets. */
  datatype Gen = Gen(target: Option<string>, source: Option<string>, rule: Option<string>)

  /** What makes `build` raise, with the index of the offending line. */
  datatype ParseError =
    | RuleBeforeGenerator(line: nat)  // `tg.rule = ...` while tg is still None
    | MissingColon(line: nat)         // `line[1]` of a split without ':'

  // ---------------------------------------------------------------
  // Comment removal: re.sub("#.*$", "", txt) with re.M
  // ---------------------------------------------------------------

  /**
   * The text with every comment removed. `inComment` says whether a '#'
   * has been seen on the current line; the line break itself is kept.
   */
  function RemoveComments(txt: string, inComment: bool): (r: string)
    ensures '#' !in r
    ensures |r| <= |txt|
    decreases |txt|
  {
    if txt == [] then []
    else if txt[0] == '\n' then ['\n'] + RemoveComments(txt[1..], false)
    else if inComment || txt[0] == '#' then RemoveComments(txt[1..], true)
    else [txt[0]] + RemoveComments(txt[1..], false)
  }

  function StripComments(txt: string): string {
    RemoveComments(txt, false)
  }

  /** The text of a line up to its first '#'. */
  function BeforeHash(line: string): (r: string)
    ensures '#' !in r
    ensures |r| <= |line| && r == line[..|r|]
    ensures |r| == |line| || line[|r|] == '#'
  {
    if line == [] || line[0] == '#' then [] else [line[0]] + BeforeHash(line[1..])
  }

  /** Inside a comment, a line's characters are all dropped. */
  lemma {:induction false} CommentTailDropped(line: string, rest: string)
    requires '\n' !in line
    ensures RemoveComments(line + rest, true) == RemoveComments(rest, true)
    decreases |line|
  {
    if line != [] {
      assert (line + rest)[1..] == line[1..] + rest;
      CommentTailDropped(line[1..], rest);
    } else {
      assert line + rest == rest;
    }
  }

  /** A line followed by a line break loses exactly the text from its first '#' on. */
  lemma {:induction false} CommentLine(line: string, rest: string)
    requires '\n' !in line
    ensures StripComments(line + "\n" + rest) == BeforeHash(line) + "\n" + StripComments(rest)
    decreases |line|
  {
    var text := line + "\n" + rest;
    if line == [] {
      assert text == ['\n'] + rest;
      assert text[1..] == rest;
    } else if line[0] == '#' {
      assert text[1..] == line[1..] + ("\n" + rest);
      CommentTailDropped(line[1..], "\n" + rest);
      assert ("\n" + rest)[0] == '\n' && ("\n" + rest)[1..] == rest;
    } else {
      assert text[1..] == line[1..] + "\n" + rest;
      CommentLine(line[1..], rest);
    }
  }

  /** Text without '#' is left as it is. */
  lemma {:induction false} NoCommentUnchanged(txt: string)
    requires '#' !in txt
    ensures StripComments(txt) == txt
    decreases |txt|
  {
    if txt != [] {
      NoCommentUnchanged(txt[1..]);
    }
  }

  // ---------------------------------------------------------------
  // The loop over lines
  // ---------------------------------------------------------------

  /** A line that starts with a tab or a space sets a rule. */
  predicate Indented(x: string) {
    x != [] && (x[0] == '\t' || x[0] == ' ')
  }

  /** A line that creates a generator. */
  predicate Declares(x: string) {
    x != [] && !Indented(x)
  }

  /** `bld()` followed by the two guarded assignments. */
  function NewGen(tgt: string, src: string): (g: Gen)
    ensures g.rule.None?
    ensures g.target.Some? <==> tgt != []
    ensures g.source.Some? <==> src != []
  {
    Gen(if tgt != [] then Some(tgt) else None, if src != [] then Some(src) else None, None)
  }

  /** Splitting gives at least two pieces exactly when the text holds the separator. */
  lemma SplitPieces(s: string, sep: char)
    ensures |Split(s, sep)| >= 2 <==> sep in s
  {
    if sep !in s {
      SplitWithoutSeparator(s, sep);
    }
  }

  /** One iteration of the loop for the line with index `idx`; `gens` are the generators created so far. */
  function ParseLine(gens: seq<Gen>, x: string, idx: nat): (r: Result<seq<Gen>, ParseError>)
    ensures x == [] ==> r == Ok(gens)
    ensures Indented(x) ==> (r.Err? <==> gens == [])
    ensures Indented(x) && r.Ok? ==>
      |r.value| == |gens| && r.value[..|gens| - 1] == gens[..|gens| - 1]
      && r.value[|gens| - 1] == gens[|gens| - 1].(rule := Some(LStrip(x)))
    ensures Declares(x) ==> (r.Err? <==> ':' !in x)
    ensures Declares(x) && r.Ok? ==>
      r.value == gens + [NewGen(LStrip(Split(x, ':')[0]), LStrip(Split(x, ':')[1]))]
    ensures r.Err? ==> r.error.line == idx
  {
    if x == [] then Ok(gens)
    else if Indented(x) then
      if gens == [] then Err(RuleBeforeGenerator(idx))
      else Ok(gens[..|gens| - 1] + [gens[|gens| - 1].(rule := Some(LStrip(x)))])
    else
      var fields := Split(x, ':');
      SplitPieces(x, ':');
      if |fields| < 2 then Err(MissingColon(idx))
      else Ok(gens + [NewGen(LStrip(fields[0]), LStrip(fields[1]))])
  }

  /** `tg = bld()` and the guarded assignments of source and target: one more generator, the others untouched. */
  method CreateGenerator(gens: seq<Gen>, tgt: string, src: string) returns (gens': seq<Gen>)
    ensures gens' == gens + [NewGen(tgt, src)]
  {
    gens' := gens + [Gen(None, None, None)];
    var tg := |gens'| - 1;
    if src != [] {
      gens' := gens'[tg := gens'[tg].(source := Some(src))];
    }
    if tgt != [] {
      gens' := gens'[tg := gens'[tg].(target := Some(tgt))];
    }
    assert gens'[..|gens|] == gens;
  }

  /** The loop over the first |lines| lines: the generators created, or the first error. */
  function ParseAll(lines: seq<string>): Result<seq<Gen>, ParseError> {
    if lines == [] then Ok([])
    else
      match ParseAll(lines[..|lines| - 1])
      case Err(e) => Err(e)
      case Ok(gens) => ParseLine(gens, lines[|lines| - 1], |lines| - 1)
  }

  /**
   * The body of the loop of `build` for line `x` (index `k`): `tg` is the
   * generator created last, None before the first one.
   */
  method ReadLine(gens: seq<Gen>, tg: Option<nat>, x: string, k: nat) returns (r: Result<seq<Gen>, ParseError>)
    requires tg == if gens == [] then None else Some(|gens| - 1)
    ensures r == ParseLine(gens, x, k)
  {
    if x == [] {
      return Ok(gens);
    } else if x[0] == '\t' || x[0] == ' ' {
      if tg.None? {
        return Err(RuleBeforeGenerator(k));
      }
      var updated := gens[tg.value := gens[tg.value].(rule := Some(LStrip(x)))];
      assert updated == gens[..|gens| - 1] + [gens[|gens| - 1].(rule := Some(LStrip(x)))];
      return Ok(updated);
    } else {
      var line := Split(x, ':');
      if |line| < 2 {
        return Err(MissingColon(k));
      }
      var tgt := LStrip(line[0]);
      var src := LStrip(line[1]);
      var created := CreateGenerator(gens, tgt, src);
      return Ok(created);
    }
  }

  /** cbdlib.build on the text of the cbit file. */
  method Build(txt: string) returns (r: Result<seq<Gen>, ParseError>)
    ensures r == ParseAll(SplitLines(StripComments(txt)))
  {
    var text := StripComments(txt);
    var lines := SplitLines(text);
    var gens: seq<Gen> := [];
    var tg: Option<nat> := None;
    for k := 0 to |lines|
      invariant ParseAll(lines[..k]) == Ok(gens)
      invariant tg == if gens == [] then None else Some(|gens| - 1)
    {
      ParseAllNext(lines, k);
      var step := ReadLine(gens, tg, lines[k], k);
      if step.Err? {
        ErrorPersists(lines, k + 1);
        return step;
      }
      gens := step.value;
      tg := if gens == [] then None else Some(|gens| - 1);
    }
    assert lines[..|lines|] == lines;
    return Ok(gens);
  }

  /** One more line: the parse so far, continued by that line unless it already failed. */
  lemma ParseAllNext(lines: seq<string>, k: nat)
    requires k < |lines|
    ensures ParseAll(lines[..k]).Ok? ==> ParseAll(lines[..k + 1]) == ParseLine(ParseAll(lines[..k]).value, lines[k], k)
  {
    assert lines[..k + 1][..k] == lines[..k];
  }

  /** The loop stops at the first error: no later line changes the outcome. */
  lemma {:induction false} ErrorPersists(lines: seq<string>, n: nat)
    requires n <= |lines| && ParseAll(lines[..n]).Err?
    ensures ParseAll(lines) == ParseAll(lines[..n])
    decreases |lines| - n
  {
    if n == |lines| {
      assert lines[..n] == lines;
    } else {
      assert lines[..|lines| - 1][..n] == lines[..n];
      ErrorPersists(lines[..|lines| - 1], n);
    }
  }

  // ---------------------------------------------------------------
  // Properties of the parse
  // ---------------------------------------------------------------

  /** The number of lines that create a generator. */
  function Declarations(lines: seq<string>): nat {
    if lines == [] then 0
    else Declarations(lines[..|lines| - 1]) + (if Declares(lines[|lines| - 1]) then 1 else 0)
  }

  /** A successful parse creates one generator per declaring line. */
  lemma {:induction false} OneGeneratorPerDeclaration(lines: seq<string>)
    requires ParseAll(lines).Ok?
    ensures |ParseAll(lines).value| == Declarations(lines)
    decreases |lines|
  {
    if lines != [] {
      OneGeneratorPerDeclaration(lines[..|lines| - 1]);
    }
  }

  /** The line at index i makes the parse fail, given what came before it. */
  predicate FailsAt(lines: seq<string>, i: nat)
    requires i < |lines|
  {
    (Indented(lines[i]) && Declarations(lines[..i]) == 0)
    || (Declares(lines[i]) && ':' !in lines[i])
  }

  /** A prefix of a successful parse succeeds. */
  lemma {:induction false} PrefixParses(lines: seq<string>, n: nat)
    requires n <= |lines| && ParseAll(lines).Ok?
    ensures ParseAll(lines[..n]).Ok?
    decreases |lines|
  {
    if n < |lines| {
      assert lines[..|lines| - 1][..n] == lines[..n];
      PrefixParses(lines[..|lines| - 1], n);
    } else {
      assert lines[..n] == lines;
    }
  }

  /**
   * The parse fails exactly when some line is an indented line before any
   * generator exists, or a declaring line without ':'; the error names the
   * first such line.
   */
  lemma {:induction false} FailsIffSomeLineFails(lines: seq<string>)
    ensures ParseAll(lines).Err? <==> exists i :: 0 <= i < |lines| && FailsAt(lines, i)
    ensures ParseAll(lines).Err? ==>
      var i := ParseAll(lines).error.line;
      i < |lines| && FailsAt(lines, i) && forall j :: 0 <= j < i ==> !FailsAt(lines, j)
    decreases |lines|
  {
    if lines != [] {
      var n := |lines| - 1;
      var init := lines[..n];
      FailsIffSomeLineFails(init);
      forall j | 0 <= j < n
        ensures FailsAt(lines, j) == FailsAt(init, j)
      {
        assert init[..j] == lines[..j];
        assert init[j] == lines[j];
      }
      assert lines[..n] == init;
      match ParseAll(init)
      case Err(e) =>
      case Ok(gens) =>
        OneGeneratorPerDeclaration(init);
        if ParseAll(lines).Err? {
          assert FailsAt(lines, n);
        }
        if exists i :: 0 <= i < |lines| && FailsAt(lines, i) {
          var i :| 0 <= i < |lines| && FailsAt(lines, i);
          assert i == n;
        }
    }
  }

  /** A field as a generator holds it: non-empty, without ':', and not starting with white space. */
  predicate CleanField(f: Option<string>) {
    f.Some? ==> f.value != [] && ':' !in f.value && !IsSpace(f.value[0])
  }

  /** The rule text: a whole line left-stripped, so never starting with white space (and "" for a line of blanks). */
  predicate CleanRule(f: Option<string>) {
    f.Some? ==> f.value == [] || !IsSpace(f.value[0])
  }

  predicate CleanGen(g: Gen) {
    CleanField(g.target) && CleanField(g.source) && CleanRule(g.rule)
  }

  /** A character of an lstripped string comes from the string. */
  lemma LStripFrom(s: string, c: char)
    requires c in LStrip(s)
    ensures c in s
  {
    var r := LStrip(s);
    var k :| 0 <= k < |r| && r[k] == c;
    assert s[|s| - |r| + k] == c;
  }

  /** Every generator a successful parse creates has clean fields. */
  lemma {:induction false} GeneratorsClean(lines: seq<string>)
    requires ParseAll(lines).Ok?
    ensures forall k :: 0 <= k < |ParseAll(lines).value| ==> CleanGen(ParseAll(lines).value[k])
    decreases |lines|
  {
    if lines != [] {
      var init := lines[..|lines| - 1];
      var x := lines[|lines| - 1];
      GeneratorsClean(init);
      var gens := ParseAll(init).value;
      var out := ParseAll(lines).value;
      if Indented(x) {
        forall k | 0 <= k < |out|
          ensures CleanGen(out[k])
        {
          if k < |gens| - 1 {
            assert out[k] == out[..|gens| - 1][k] == gens[..|gens| - 1][k] == gens[k];
          }
        }
      } else if Declares(x) {
        var fields := Split(x, ':');
        forall i | 0 <= i < 2
          ensures ':' !in LStrip(fields[i])
        {
          if ':' in LStrip(fields[i]) {
            LStripFrom(fields[i], ':');
          }
        }
        forall k | 0 <= k < |out|
          ensures CleanGen(out[k])
        {
          if k < |gens| {
            assert out[k] == gens[k];
          }
        }
      }
    }
  }
}
