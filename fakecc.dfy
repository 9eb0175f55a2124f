/**
 * The fake Fortran compiler of waf's module demo (demos/fortran/mod/fakecc.py):
 * two scanners that list the modules a source declares (`module name`) and
 * uses (`use name`), and the compile step that writes "compiled" and, when
 * the source declares a module, a module file named after the first one.
 * Reading and writing nodes are I/O: the source text is a parameter and
 * the files written are returned.
 */
module FakeCc {
  import opened Common
  import opened PyStrings

  const ModuleKeyword := "module "
  const UseKeyword := "use "
  const ModExtension := ".mod"
  const CompiledText := "compiled"
  const ModuleCompiledText := "module compiled"

  /** The regex class [a-z]. */
  predicate IsLower(c: char) {
    'a' <= c <= 'z'
  }

  /** The greedy match of [a-z]* at the start of s. */
  function LowerRun(s: string): (r: string)
    ensures |r| <= |s| && r == s[..|r|]
    ensures forall i :: 0 <= i < |r| ==> IsLower(r[i])
    ensures |r| == |s| || !IsLower(s[|r|])
  {
    if s != [] && IsLower(s[0]) then [s[0]] + LowerRun(s[1..]) else []
  }

  /** re.match('<keyword>([a-z]*)', line): anchored at the line start; the group is the letters after the keyword. */
  function MatchKeyword(line: string, keyword: string): (m: Option<string>)
    ensures m.Some? <==> StartsWith(line, keyword)
    ensures m.Some? ==> StartsWith(line[|keyword|..], m.value)
  {
    if StartsWith(line, keyword) then Some(LowerRun(line[|keyword|..])) else None
  }

  /** The scanning loop: for each matching line in order, its group followed by ".mod". */
  function Scan(lines: seq<string>, keyword: string): (deps: seq<string>)
    ensures |deps| <= |lines|
    ensures forall i :: 0 <= i < |deps| ==> EndsWith(deps[i], ModExtension)
  {
    if lines == [] then []
    else
      var rest := Scan(lines[1..], keyword);
      match MatchKeyword(lines[0], keyword)
      case Some(name) => [name + ModExtension] + rest
      case None => rest
  }

  /** fakecc.ismodule: the module files a source declares. */
  function IsModule(text: string): seq<string> {
    Scan(SplitLines(text), ModuleKeyword)
  }

  /** fakecc.usemodule: the module files a source uses. */
  function UseModule(text: string): seq<string> {
    Scan(SplitLines(text), UseKeyword)
  }

  /** One line alone: a matching line yields exactly its module file, any other line nothing. */
  lemma ScanOneLine(line: string, keyword: string)
    ensures Scan([line], keyword) ==
      if StartsWith(line, keyword) then [LowerRun(line[|keyword|..]) + ModExtension] else []
  {
    assert [line][1..] == [];
  }

  /** Scanning distributes over concatenation: the result keeps the line order. */
  lemma {:induction false} ScanAppend(a: seq<string>, b: seq<string>, keyword: string)
    ensures Scan(a + b, keyword) == Scan(a, keyword) + Scan(b, keyword)
    decreases |a|
  {
    if a == [] {
      assert a + b == b;
    } else {
      assert (a + b)[1..] == a[1..] + b;
      assert (a + b)[0] == a[0];
      ScanAppend(a[1..], b, keyword);
    }
  }

  /** A line of the form "<keyword><lowercase name><anything not a lowercase letter>" yields name.mod. */
  lemma DeclarationLine(keyword: string, name: string, tail: string)
    requires forall i :: 0 <= i < |name| ==> IsLower(name[i])
    requires tail == [] || !IsLower(tail[0])
    ensures Scan([keyword + name + tail], keyword) == [name + ModExtension]
  {
    var line := keyword + name + tail;
    assert line[..|keyword|] == keyword;
    assert line[|keyword|..] == name + tail;
    LowerRunOf(name, tail);
    ScanOneLine(line, keyword);
  }

  lemma {:induction false} LowerRunOf(name: string, tail: string)
    requires forall i :: 0 <= i < |name| ==> IsLower(name[i])
    requires tail == [] || !IsLower(tail[0])
    ensures LowerRun(name + tail) == name
    decreases |name|
  {
    if name == [] {
      assert name + tail == tail;
    } else {
      assert (name + tail)[1..] == name[1..] + tail;
      LowerRunOf(name[1..], tail);
    }
  }

  /** A line that starts with "use " is never a module declaration, and conversely. */
  lemma KeywordsExclusive(line: string)
    ensures !(StartsWith(line, ModuleKeyword) && StartsWith(line, UseKeyword))
  {
    if StartsWith(line, ModuleKeyword) {
      assert line[..|UseKeyword|][0] == line[0] == ModuleKeyword[0] != UseKeyword[0];
    }
  }

  /** The files the compile step leaves behind. */
  datatype Written = Written(output: string, moduleFile: Option<(string, string)>)

  /** fakecc.compile (and fakecc.run, which calls it after printing the used modules). */
  function Compile(source: string): (w: Written)
    ensures w.output == CompiledText
    ensures w.moduleFile.Some? <==> IsModule(source) != []
    ensures w.moduleFile.Some? ==>
      w.moduleFile.value == (IsModule(source)[0], ModuleCompiledText)
  {
    var m := IsModule(source);
    Written(CompiledText, if m != [] then Some((m[0], ModuleCompiledText)) else None)
  }

  /** A source whose first line declares module `name` makes the compile step write name.mod. */
  lemma FirstDeclarationNamesModuleFile(name: string, rest: string)
    requires forall i :: 0 <= i < |name| ==> IsLower(name[i])
    ensures Compile(ModuleKeyword + name + "\n" + rest).moduleFile == Some((name + ModExtension, ModuleCompiledText))
  {
    var first := ModuleKeyword + name;
    assert '\n' !in first by {
      forall i | 0 <= i < |first| ensures first[i] != '\n' {
        if i >= |ModuleKeyword| {
          assert first[i] == name[i - |ModuleKeyword|];
        }
      }
    }
    assert ModuleKeyword + name + "\n" + rest == first + "\n" + rest;
    SplitLinesHead(first, rest);
    ScanAppend([first], SplitLines(rest), ModuleKeyword);
    assert first == ModuleKeyword + name + [];
    DeclarationLine(ModuleKeyword, name, []);
  }
}
