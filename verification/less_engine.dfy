/**
 * The customize engine for Less: configuration normalisation, the list of
 * watched paths, the synthesised entry document that imports every main file,
 * and the mapping of the compiler's output to the two output artifacts.
 * The Less compiler itself is a parameter of `Run`.
 */
module LessEngine {
  import opened Wrappers
  import opened PathExt
  import opened TextLines

  // ---------------------------------------------------------------------------
  // Configuration

  /** A configuration property that may be missing, a single string or a list of strings. */
  datatype Field = Absent | Single(s: string) | Many(items: seq<string>)

  /** The strings a property denotes, in order: none, the one, or all of the list. */
  function Items(f: Field): seq<string> {
    match f
    case Absent => []
    case Single(s) => [s]
    case Many(xs) => xs
  }

  /**
   * `coerceToArray`: a missing property stays missing, a list is kept as it is
   * and a single string is wrapped into a one-element list.
   */
  function Coerce(f: Field): (r: Field)
    ensures r.Absent? <==> f.Absent?
    ensures !r.Single?
    ensures Items(r) == Items(f)
    ensures f.Many? ==> r == f
  {
    if f.Single? then Many([f.s]) else f
  }

  /** Coercion is the only list-or-absent shape that keeps presence and the denoted strings. */
  lemma CoerceUnique(f: Field, g: Field)
    requires !g.Single? && (g.Absent? <==> f.Absent?) && Items(g) == Items(f)
    ensures g == Coerce(f)
  {
  }

  /** Coercing an already coerced property changes nothing. */
  lemma CoerceIdempotent(f: Field)
    ensures Coerce(Coerce(f)) == Coerce(f)
  {
  }

  /**
   * A configuration object: the two recognised properties, and in `others`
   * every other property the host passed along, keyed by its name (never
   * "main" or "paths", see `WellKeyed`), which the engine ignores.
   */
  datatype Config = Config(main: Field, paths: Field, others: map<string, Field>)

  /** A JavaScript object holds each property once: `others` does not repeat `main` or `paths`. */
  predicate WellKeyed(c: Config) {
    "main" !in c.others && "paths" !in c.others
  }

  /** Both properties are lists or missing, and there is nothing else. */
  predicate Canonical(c: Config) {
    !c.main.Single? && !c.paths.Single? && c.others == map[]
  }

  /** `defaultConfig`: no main files and no import paths, both given as empty lists. */
  function DefaultConfig(): (c: Config)
    ensures c.main.Many? && c.paths.Many?
    ensures Items(c.main) == [] && Items(c.paths) == []
    ensures c.others == map[]
  {
    Config(Many([]), Many([]), map[])
  }

  /**
   * `preprocessConfig`: a fresh object holding exactly the coerced `main` and
   * the coerced `paths`; every other property is dropped.
   */
  function Preprocess(c: Config): (r: Config)
    ensures Canonical(r) && WellKeyed(r)
    ensures r.main == Coerce(c.main) && r.paths == Coerce(c.paths)
    ensures r.others == map[]
  {
    Config(Coerce(c.main), Coerce(c.paths), map[])
  }

  /** The default configuration is already canonical. */
  lemma PreprocessDefault()
    ensures Canonical(DefaultConfig())
    ensures Preprocess(DefaultConfig()) == DefaultConfig()
  {
  }

  /** Preprocessing a preprocessed configuration changes nothing. */
  lemma PreprocessIdempotent(c: Config)
    ensures Preprocess(Preprocess(c)) == Preprocess(c)
  {
    CoerceIdempotent(c.main);
    CoerceIdempotent(c.paths);
  }

  /**
   * `watched`: the main files followed by the import paths, each coerced to a
   * list, with order kept and no duplicates removed. Both properties must be
   * present.
   */
  function Watched(c: Config): (r: seq<string>)
    requires !c.main.Absent? && !c.paths.Absent?
    ensures r == Items(c.main) + Items(c.paths)
    ensures |r| == |Items(c.main)| + |Items(c.paths)|
  {
    Coerce(c.main).items + Coerce(c.paths).items
  }

  /** The host may ask for the watched paths before or after preprocessing: the answer is the same. */
  lemma WatchedAfterPreprocess(c: Config)
    requires !c.main.Absent? && !c.paths.Absent?
    ensures Watched(Preprocess(c)) == Watched(c)
  {
  }

  /** A single main file and two import paths. */
  lemma WatchedExample()
    ensures Watched(Config(Single("a.less"), Many(["b/", "c/"]), map[])) == ["a.less", "b/", "c/"]
    ensures Watched(DefaultConfig()) == []
  {
  }

  // ---------------------------------------------------------------------------
  // Entry document

  /** An `@import` statement: whether it is an inline import, and the imported file. */
  datatype ImportDirective = ImportDirective(inline: bool, file: string)

  const InlinePrefix: string := "@import (inline) \""
  const PlainPrefix: string := "@import \""
  const Terminator: string := "\";"

  /** The text of an import statement; the file name is inserted as it is, without escaping. */
  function Render(d: ImportDirective): (line: string)
    ensures |line| >= |d.file| + 11
    ensures line[..8] == "@import " && line[|line| - 2..] == Terminator
    ensures line[8] == '(' <==> d.inline
    ensures line[|line| - |d.file| - 2..|line| - 2] == d.file
  {
    (if d.inline then InlinePrefix else PlainPrefix) + d.file + Terminator
  }

  /** Reads an import statement back from its text, if the text has the shape of one. */
  function ParseImport(line: string): Option<ImportDirective> {
    if |line| >= |InlinePrefix| + |Terminator| && line[..|InlinePrefix|] == InlinePrefix
       && line[|line| - |Terminator|..] == Terminator
    then Some(ImportDirective(true, line[|InlinePrefix|..|line| - |Terminator|]))
    else if |line| >= |PlainPrefix| + |Terminator| && line[..|PlainPrefix|] == PlainPrefix
       && line[|line| - |Terminator|..] == Terminator
    then Some(ImportDirective(false, line[|PlainPrefix|..|line| - |Terminator|]))
    else None
  }

  /** Rendering loses nothing: the statement reads back as the directive it came from. */
  lemma ParseRender(d: ImportDirective)
    ensures ParseImport(Render(d)) == Some(d)
  {
    var line := Render(d);
    var pre := if d.inline then InlinePrefix else PlainPrefix;
    assert line[..|pre|] == pre;
    assert line[|line| - |Terminator|..] == Terminator;
    assert line[|pre|..|line| - |Terminator|] == d.file;
    if !d.inline {
      assert line[8] != InlinePrefix[8];
    }
  }

  /** Reading back is exact: a statement that parses is the rendering of what it parsed to. */
  lemma RenderParse(line: string)
    requires ParseImport(line).Some?
    ensures Render(ParseImport(line).value) == line
  {
    var d := ParseImport(line).value;
    var pre := if d.inline then InlinePrefix else PlainPrefix;
    assert line == line[..|pre|] + line[|pre|..|line| - |Terminator|] + line[|line| - |Terminator|..];
  }

  /** The fixed parts of a statement hold no "\n": a line break in it comes from the file name. */
  lemma RenderNewline(d: ImportDirective)
    ensures '\n' in Render(d) <==> '\n' in d.file
  {
    var pre := if d.inline then InlinePrefix else PlainPrefix;
    var line := Render(d);
    assert '\n' !in pre && '\n' !in Terminator;
    if '\n' in d.file {
      var k :| 0 <= k < |d.file| && d.file[k] == '\n';
      assert line[|pre| + k] == '\n';
    }
  }

  /** Whether a main file is plain CSS, judged by its extension being exactly ".css". */
  predicate IsCssFile(file: string)
    ensures IsCssFile(file) <==> |file| >= 5 && file[|file| - 4..] == ".css" && file[|file| - 5] != '/'
  {
    IsCssExtension(file);
    Extname(file) == ".css"
  }

  /**
   * The import statement for one main file: an inline import when the file's
   * extension is exactly ".css", an ordinary import otherwise.
   */
  function ImportLine(file: string): (line: string)
    ensures ParseImport(line) == Some(ImportDirective(IsCssFile(file), file))
    ensures '\n' in line <==> '\n' in file
    ensures line != ""
  {
    var d := ImportDirective(IsCssFile(file), file);
    ParseRender(d);
    RenderNewline(d);
    Render(d)
  }

  /**
   * `main.map(...)`: one import statement per main file, in their order (each
   * reads back as its file, by `ImportLine`); without "\n" in the file names there is none in
   * the statements.
   */
  function ImportLines(main: seq<string>): (lines: seq<string>)
    ensures |lines| == |main|
    ensures forall i :: 0 <= i < |main| ==> lines[i] == ImportLine(main[i])
    ensures NoNewlines(main) ==> NoNewlines(lines)
  {
    seq(|main|, i requires 0 <= i < |main| => ImportLine(main[i]))
  }

  /** The Less source handed to the compiler: the import statements joined by "\n". */
  function EntryDocument(main: seq<string>): (doc: string)
    ensures doc == "" <==> main == []
  {
    Join(ImportLines(main))
  }

  /** Adding a main file appends a "\n" and its statement: the document is the statements joined in order. */
  lemma EntryDocumentAppend(main: seq<string>, file: string)
    requires main != []
    ensures EntryDocument(main + [file]) == EntryDocument(main) + "\n" + ImportLine(file)
  {
    ImportLinesAppend(main, file);
    JoinAppend(ImportLines(main), ImportLine(file));
  }

  /** Mapping over `main + [file]` appends that file's statement to the statements of `main`. */
  lemma ImportLinesAppend(main: seq<string>, file: string)
    ensures ImportLines(main + [file]) == ImportLines(main) + [ImportLine(file)]
  {
    var lines := ImportLines(main + [file]);
    forall i | 0 <= i < |main| ensures lines[i] == ImportLines(main)[i] {
      assert (main + [file])[i] == main[i];
    }
  }

  /**
   * When no main file name contains "\n", the document has exactly one line per
   * main file, in the same order, and each line is the import statement for
   * that file, which reads back as that file with the inline form exactly for
   * ".css" files.
   */
  lemma EntryDocumentLines(main: seq<string>)
    requires |main| > 0 && NoNewlines(main)
    ensures var lines := Split(EntryDocument(main));
      && |lines| == |main|
      && forall i :: 0 <= i < |main| ==>
           && lines[i] == ImportLine(main[i])
           && ParseImport(lines[i]) == Some(ImportDirective(IsCssFile(main[i]), main[i]))
  {
    var lines := ImportLines(main);
    assert NoNewlines(lines);
    SplitJoin(lines);
  }

  /**
   * The two forms of statement: a file whose name ends in ".css" right after a
   * character of its last path segment is imported inline, every other file
   * (".less", ".CSS", a dot file named ".css", ...) normally.
   */
  lemma ImportLineForm(file: string)
    ensures IsCssFile(file) ==> ImportLine(file) == "@import (inline) \"" + file + "\";"
    ensures !IsCssFile(file) ==> ImportLine(file) == "@import \"" + file + "\";"
  {
  }

  /** One main file gives a document that is just its import statement. */
  lemma EntryDocumentOneFile(file: string)
    ensures EntryDocument([file]) == ImportLine(file)
  {
    assert ImportLines([file]) == [ImportLine(file)];
  }

  /** Two main files give their two statements in order, separated by "\n". */
  lemma EntryDocumentTwoFiles(first: string, second: string)
    ensures EntryDocument([first, second]) == ImportLine(first) + "\n" + ImportLine(second)
  {
    assert [first] + [second] == [first, second];
    EntryDocumentOneFile(first);
    EntryDocumentAppend([first], second);
  }

  // ---------------------------------------------------------------------------
  // Compilation

  /** What the Less compiler yields on success. */
  datatype CompilerOutput = CompilerOutput(css: string, sourceMap: string)

  /** The options object passed to the compiler. */
  datatype CompileOptions = CompileOptions(
    paths: Field,
    sourceMapURL: string,
    outputSourceFiles: bool,
    filename: string,
    compress: bool)

  /** The import paths are forwarded unchanged; the rest are fixed. */
  function OptionsFor(c: Config): (o: CompileOptions)
    ensures o.paths == c.paths
    ensures o.sourceMapURL == "main.css.map" && o.outputSourceFiles
    ensures o.filename == "customize-bundle.less" && o.compress
  {
    CompileOptions(c.paths, "main.css.map", true, "customize-bundle.less", true)
  }

  /** The two output artifacts: the stylesheet under "main.css" and its source map under "main.css.map". */
  function Artifacts(out: CompilerOutput): (files: map<string, string>)
    ensures files.Keys == {"main.css", "main.css.map"}
    ensures files["main.css"] == out.css && files["main.css.map"] == out.sourceMap
  {
    map["main.css" := out.css, "main.css.map" := out.sourceMap]
  }

  /**
   * `run`: compiles the entry document for the main files with `compile` and,
   * on success, returns the two artifacts; a compiler error is passed on as it
   * is. `main` must be a list.
   */
  function Run<E>(c: Config, compile: (string, CompileOptions) -> Result<CompilerOutput, E>)
    : (r: Result<map<string, string>, E>)
    requires c.main.Many?
    ensures var out := compile(EntryDocument(c.main.items), OptionsFor(c));
      && (r.Ok? <==> out.Ok?)
      && (r.Err? ==> r.error == out.error)
      && (r.Ok? ==> r.value.Keys == {"main.css", "main.css.map"}
                    && r.value["main.css"] == out.value.css
                    && r.value["main.css.map"] == out.value.sourceMap)
  {
    match compile(EntryDocument(c.main.items), OptionsFor(c))
    case Ok(out) => Ok(Artifacts(out))
    case Err(e) => Err(e)
  }
}
