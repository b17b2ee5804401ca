/**
 * JavaScript's `Array.prototype.join("\n")` and its inverse `String.prototype.split("\n")`,
 * on strings as sequences of characters.
 */
module TextLines {

  /** The lines separated by single "\n" characters; the empty list gives the empty string. */
  function Join(lines: seq<string>): (s: string)
    ensures lines == [] ==> s == ""
    ensures |lines| == 1 ==> s == lines[0]
    ensures |lines| > 0 ==> |lines[0]| <= |s| && s[..|lines[0]|] == lines[0]
  {
    if |lines| == 0 then ""
    else if |lines| == 1 then lines[0]
    else lines[0] + "\n" + Join(lines[1..])
  }

  /** Two lines are joined by one "\n". */
  lemma JoinTwo(a: string, b: string)
    ensures Join([a, b]) == a + "\n" + b
  {
    assert [a, b][1..] == [b];
  }

  /** Appending a line to a non-empty list appends "\n" and that line. */
  lemma {:induction false} JoinAppend(lines: seq<string>, last: string)
    requires lines != []
    ensures Join(lines + [last]) == Join(lines) + "\n" + last
  {
    if |lines| == 1 {
      JoinTwo(lines[0], last);
    } else {
      assert (lines + [last])[1..] == lines[1..] + [last];
      JoinAppend(lines[1..], last);
    }
  }

  /** True when no line contains the separator. */
  predicate NoNewlines(lines: seq<string>) {
    forall i :: 0 <= i < |lines| ==> '\n' !in lines[i]
  }

  /**
   * The pieces of `s` between "\n" characters. Like JavaScript's split, it never
   * returns the empty list ("" splits into [""]), and joining the pieces gives `s` back.
   */
  function Split(s: string): (lines: seq<string>)
    ensures |lines| >= 1
    ensures NoNewlines(lines)
    ensures Join(lines) == s
  {
    if s == [] then [""]
    else
      var rest := Split(s[1..]);
      if s[0] == '\n' then
        assert s == "\n" + s[1..];
        [""] + rest
      else
        var lines := [[s[0]] + rest[0]] + rest[1..];
        assert lines[1..] == rest[1..];
        assert s == [s[0]] + s[1..];
        lines
  }

  /** Splitting a line followed by "\n" peels that line off. */
  lemma {:induction false} SplitLine(a: string, t: string)
    requires '\n' !in a
    ensures Split(a + "\n" + t) == [a] + Split(t)
  {
    if a == [] {
      assert a + "\n" + t == "\n" + t;
    } else {
      assert (a + "\n" + t)[1..] == a[1..] + "\n" + t;
      SplitLine(a[1..], t);
      assert a == [a[0]] + a[1..];
    }
  }

  /** A string without "\n" splits into itself alone. */
  lemma {:induction false} SplitSingle(a: string)
    requires '\n' !in a
    ensures Split(a) == [a]
  {
    if a != [] {
      SplitSingle(a[1..]);
      assert a == [a[0]] + a[1..];
    }
  }

  /** Split undoes Join on a non-empty list of lines that do not contain "\n". */
  lemma {:induction false} SplitJoin(lines: seq<string>)
    requires |lines| > 0 && NoNewlines(lines)
    ensures Split(Join(lines)) == lines
  {
    if |lines| == 1 {
      SplitSingle(lines[0]);
    } else {
      SplitLine(lines[0], Join(lines[1..]));
      SplitJoin(lines[1..]);
      assert lines == [lines[0]] + lines[1..];
    }
  }
}
