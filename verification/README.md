# customize-engine-less, modelled in Dafny

This project models the Less engine of the `customize` build orchestrator
(`index.js`). The engine takes a small configuration: `main` holds the
stylesheets to compile and `paths` holds the import search paths. Each may be
one string or a list. The engine does four things:

- it normalises both properties to lists (`preprocessConfig`, using
  `coerceToArray`);
- it reports the paths the host should watch (`watched`);
- it builds an entry document with one `@import` statement per main file,
  inline for plain `.css` files (`run`);
- it turns the Less compiler's output into the two artifacts `main.css` and
  `main.css.map`.

Everything the engine itself computes is pure, so the model is datatypes,
functions and lemmas. Only the compiler call reads files and returns a
promise. The modules are:

- `Wrappers`: `Option` and `Result`.
- `PathExt`: the extension test that `path.extname` provides.
- `TextLines`: the `join("\n")` the engine uses, with `split("\n")` as its
  inverse.
- `LessEngine`: configuration, watched paths, entry document, artifacts and
  `Run`.

The Less compiler is a function parameter of `Run`. It returns either a
compiler output or an error.

## Model

| member | source | states |
|---|---|---|
| `LessEngine.Coerce` | index.js:75-80 | a missing property stays missing, a list is returned unchanged, a single string becomes a list; the result is never a bare string and denotes the same strings in the same order |
| `LessEngine.CoerceUnique` | index.js:69-80 | coercion is the only list-or-missing value that keeps presence and the denoted strings |
| `LessEngine.CoerceIdempotent` | index.js:75-80 | coercing a coerced property changes nothing |
| `LessEngine.DefaultConfig` | index.js:23-26 | `main` and `paths` are both given as lists holding no strings, and there are no other properties |
| `LessEngine.Preprocess` | index.js:28-33 | the result has exactly the coerced `main` and the coerced `paths`; all other properties are dropped, and the result is canonical and holds each property once |
| `LessEngine.PreprocessDefault` | index.js:23-33 | the default configuration (two empty lists) is canonical, and preprocessing leaves it unchanged |
| `LessEngine.PreprocessIdempotent` | index.js:28-33 | preprocessing twice equals preprocessing once |
| `LessEngine.Watched` | index.js:35-37 | the strings of `main` followed by the strings of `paths`, in order and without deduplication; the length is the sum of the two |
| `LessEngine.WatchedAfterPreprocess` | index.js:28-37 | the watched list is the same before and after preprocessing |
| `LessEngine.WatchedExample` | index.js:35-37 | `main: "a.less"` with `paths: ["b/", "c/"]` gives `["a.less", "b/", "c/"]`, and the default configuration gives `[]` |
| `PathExt.LastSegment` | index.js:46 | the longest suffix of the path that holds no '/'; when it is not the whole path, a '/' comes right before it |
| `PathExt.LastIndexOf` | index.js:46 | the position of the last occurrence of a character, or none when the character does not occur |
| `PathExt.Extname` | index.js:46 | empty exactly when no '.' comes after the first character of the last segment; otherwise a suffix of the path with one leading '.', no other '.', no '/', and a non-'/' character before it |
| `PathExt.IsCssExtension` | index.js:46 | the extension is exactly ".css" iff the path ends in ".css" and the character before that is present and is not '/' |
| `TextLines.Join` | index.js:51 | the empty list joins to "", a single line joins to itself, and the first line is a prefix of the result |
| `TextLines.JoinAppend` | index.js:51 | appending a line to a non-empty list appends "\n" and that line to the joined text |
| `TextLines.JoinTwo` | index.js:51 | two lines are joined by a single "\n" |
| `TextLines.Split` | index.js:51 | the pieces never form an empty list, contain no "\n", and join back to the input |
| `TextLines.SplitJoin` | index.js:51 | splitting undoes joining on a non-empty list of lines without "\n" |
| `LessEngine.Render` | index.js:47-49 | a statement starts with `@import ` and ends with `";`, has `(` right after `@import ` exactly when it is inline, and holds the file name verbatim just before the closing `";` |
| `LessEngine.ParseRender` | index.js:47-49 | an import statement reads back as the directive (inline or not, file) it was rendered from |
| `LessEngine.RenderParse` | index.js:47-49 | a text that reads back as a directive is exactly that directive's rendering |
| `LessEngine.RenderNewline` | index.js:47-49 | a statement contains "\n" exactly when its file name does, because the file name is inserted without escaping |
| `LessEngine.IsCssFile` | index.js:46 | a file counts as CSS iff its name ends in ".css" and the character before that is present and is not '/' (case-sensitive) |
| `LessEngine.ImportLine` | index.js:45-50 | the statement for a file reads back as that file, marked inline exactly when its extension is ".css"; it is non-empty and contains "\n" only if the file name does |
| `LessEngine.ImportLineForm` | index.js:46-50 | a file that passes the ".css" test (`IsCssFile`) gives `@import (inline) "` + file + `";`, and any other file gives `@import "` + file + `";` |
| `LessEngine.ImportLines` | index.js:45-50 | one statement per main file, the i-th being the statement for the i-th file; no statement holds "\n" when no file name does |
| `LessEngine.EntryDocument` | index.js:45-51 | the document is empty exactly when there are no main files |
| `LessEngine.EntryDocumentAppend` | index.js:45-51 | for any non-empty list of main files, adding one file appends "\n" and that file's statement, so the document is the statements joined in order |
| `LessEngine.EntryDocumentLines` | index.js:45-51 | with file names free of "\n", the document has one line per main file, in order; each line is that file's statement and reads back as that file |
| `LessEngine.EntryDocumentOneFile` | index.js:45-51 | one main file gives a document that is just its statement |
| `LessEngine.EntryDocumentTwoFiles` | index.js:45-51 | two main files give their two statements in order, separated by "\n" |
| `LessEngine.OptionsFor` | index.js:52-59 | the compiler options forward `paths` unchanged, set the source-map URL to `main.css.map`, embed the source files, name the input `customize-bundle.less` and turn compression on |
| `LessEngine.Artifacts` | index.js:60-65 | the artifact map has exactly the keys `main.css` and `main.css.map`, bound to the compiled CSS and the source map |
| `LessEngine.Run` | index.js:44-65 | the compiler receives the entry document of `main` and the options (`paths` unchanged, source-map URL `main.css.map`, source files embedded, file name `customize-bundle.less`, compression on); compiler success gives exactly the two artifacts, and a compiler error is returned unchanged |

## Left out

- `schema` (index.js:21): `schema.js` is not part of this model.
- The Less compiler (`less.render`, index.js:52-59) is a parameter of `Run`.
  Its parsing, import resolution, CSS output and source maps are not modelled.
- The Promise chain is left out. `Run` returns a `Result` right away instead
  of a promise that resolves or rejects.
- Configuration values other than strings are not modelled. In JavaScript,
  `coerceToArray` would also wrap a number, an object or `null`.
- `PathExt.Extname` simplifies Node's `path.extname` and only treats '/' as a
  separator. It does not strip trailing separators: `a.css/` has extension
  ".css" in Node but "" here. For `..` Node returns "" but this model
  returns ".". On Windows-style paths (`\` or a drive letter such as `C:`
  as separator) the last segment is also taken differently.
- `LessEngine.IsCssFile` is weaker than the ".css" test at index.js:46 in two
  cases. With a trailing separator, `a.css/` is imported inline by the source
  but normally here. With Windows separators, a dot file such as `x\.css` or
  `C:.css` is imported normally by the source but inline here. For
  '/'-separated paths without a trailing '/', the two tests agree.
- `LessEngine.Watched` requires both `main` and `paths` to be present. In
  JavaScript an absent `main` throws (`undefined.concat`), and an absent
  `paths` appends one `undefined` element.
- `LessEngine.Run` requires `main` to be a list. In JavaScript a bare string or
  a missing `main` fails on `.map` before the compiler is called.
- `LessEngine.EntryDocumentLines` needs file names without "\n". A file name
  containing "\n" is inserted verbatim and spreads over several lines.
