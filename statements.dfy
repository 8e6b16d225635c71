/**
 * The statements of a CQL file: the file's text cut at every `;`, and the
 * trimming each statement gets before it is sent.
 */
module Statements {
  import opened GoStrings

  /**
   * The statements of a file whose text is `text` (reading the file is not
   * modelled): the pieces between semicolons, so that empty text and a final
   * `;` each give an empty statement.
   */
  function ReadCQLs(text: string): (cqls: seq<string>)
    ensures Join(cqls, ";") == text
    ensures forall i :: 0 <= i < |cqls| ==> ';' !in cqls[i]
    ensures |cqls| == multiset(text)[';'] + 1
  {
    JoinSplit(text, ';');
    SplitShape(text, ';');
    Split(text, ';')
  }

  /** Conversely, statements without `;` are read back from their join. */
  lemma ReadCQLsJoin(cqls: seq<string>)
    requires |cqls| >= 1
    requires forall i :: 0 <= i < |cqls| ==> ';' !in cqls[i]
    ensures ReadCQLs(Join(cqls, ";")) == cqls
  {
    SplitJoin(cqls, ';');
  }

  /** The characters `TrimCQL` may remove. */
  const LineBreaks: set<char> := {'\n', '\r'}

  /**
   * One statement as it is sent: leading and trailing `\n` are stripped first,
   * then leading and trailing `\r`.
   */
  function TrimCQL(cql: string): string
  {
    Trim(Trim(cql, '\n'), '\r')
  }

  /** A trimmed statement neither starts nor ends with `\r`. */
  lemma TrimCQLEnds(cql: string)
    ensures TrimCQL(cql) == [] || (TrimCQL(cql)[0] != '\r' && TrimCQL(cql)[|TrimCQL(cql)| - 1] != '\r')
  {
    TrimEnds(Trim(cql, '\n'), '\r');
  }

  /**
   * Trimming keeps an infix of the statement and removes line breaks only:
   * every character before and after the kept part is `\n` or `\r`.
   */
  lemma TrimCQLInfix(cql: string)
    ensures exists i :: Surrounds(cql, i, TrimCQL(cql), LineBreaks)
  {
    var n := Trim(cql, '\n');
    TrimSurrounds(cql, '\n');
    TrimSurrounds(n, '\r');
    SurroundsCompose(cql, |cql| - |TrimLeft(cql, '\n')|, n, {'\n'}, |n| - |TrimLeft(n, '\r')|, TrimCQL(cql), {'\r'});
    assert {'\n'} + {'\r'} == LineBreaks;
  }

  /** A statement made of `\n` only trims to the empty statement. */
  lemma TrimCQLOnlyNewlines(cql: string)
    requires forall k :: 0 <= k < |cql| ==> cql[k] == '\n'
    ensures TrimCQL(cql) == ""
  {
    TrimLeftDropsOnly(cql, '\n');
  }

  /** A statement that neither starts nor ends with a line break is sent unchanged, spaces included. */
  lemma TrimCQLKeeps(cql: string)
    requires cql == [] || (cql[0] !in LineBreaks && cql[|cql| - 1] !in LineBreaks)
    ensures TrimCQL(cql) == cql
  {
  }

  /** A blank space survives trimming, so it is a statement that gets executed. */
  lemma TrimCQLKeepsSpace()
    ensures TrimCQL(" ") == " "
  {
    TrimCQLKeeps(" ");
  }

  /**
   * Because `\n` is stripped before `\r`, a blank Windows line `\r\n\r\n`
   * trims to `\n`, not to the empty statement, and trimming again changes it.
   */
  lemma TrimCQLWindowsBlankLine()
    ensures TrimCQL("\r\n\r\n") == "\n"
    ensures TrimCQL(TrimCQL("\r\n\r\n")) == ""
  {
    var s := "\r\n\r\n";
    assert TrimLeft(s, '\n') == s;
    assert s[..|s| - 1] == "\r\n\r";
    assert TrimRight(s, '\n') == "\r\n\r";
    assert "\r\n\r"[1..] == "\n\r";
    assert TrimLeft("\r\n\r", '\r') == "\n\r";
    assert "\n\r"[..1] == "\n";
    assert TrimRight("\n\r", '\r') == "\n";
    TrimCQLOnlyNewlines("\n");
  }
}
