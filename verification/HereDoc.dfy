/** The here-document through which the compose file travels
    (internal/provisioner/services.go:37-39), read back as a shell reads it: section 2.7.4 of
    the POSIX Shell Command Language (IEEE Std 1003.1-2017). The delimiter is quoted, so the
    lines up to it are taken literally. */
module HereDoc {
  import opened Wrappers
  import opened Text
  import opened Schema
  import opened Compose

  const DELIMITER := "EOF"

  function Redirection(path: string): string {
    "cat > " + path + " << 'EOF'"
  }

  /** The command that DeployServices sends. */
  function Command(path: string, document: string): string {
    Redirection(path) + "\n" + document + "\n" + DELIMITER
  }

  /** The lines before the first one that is the delimiter. */
  function Until(lines: seq<string>, delimiter: string): (body: seq<string>)
    ensures body <= lines
    ensures delimiter !in body
    ensures |body| < |lines| ==> lines[|body|] == delimiter
  {
    if lines == [] || lines[0] == delimiter then [] else [lines[0]] + Until(lines[1..], delimiter)
  }

  /** What a shell makes of the first line. */
  datatype Redirect = Redirect(path: string, delimiter: string)

  /** A redirection of cat into a file, from a here-document. Only under a quoted delimiter are the
      lines taken literally; what becomes of them otherwise is not known. */
  function ParseRedirect(line: string): Option<Redirect> {
    if |line| < 6 || line[..6] != "cat > " then None
    else
      var rest := line[6..];
      var i := IndexOf(rest, ' ');
      if |rest| < i + 6 || rest[i..i + 5] != " << '" || rest[|rest| - 1] != '\'' then None
      else
        var delimiter := rest[i + 5..|rest| - 1];
        if '\'' in delimiter then None else Some(Redirect(rest[..i], delimiter))
  }

  /** The content that a shell running the command writes to a file, if it writes to that one. */
  function Written(path: string, command: string): Option<string> {
    var lines := Split(command, '\n');
    var redirect :- ParseRedirect(lines[0]);
    if redirect.path == path then Some(Unlines(Until(lines[1..], redirect.delimiter))) else None
  }

  predicate PathWord(path: string) {
    '\n' !in path && ' ' !in path
  }

  lemma RedirectionParsed(path: string)
    requires ' ' !in path
    ensures ParseRedirect(Redirection(path)) == Some(Redirect(path, DELIMITER))
  {
    var tail := " << 'EOF'";
    var line := Redirection(path);
    assert line == "cat > " + (path + tail);
    assert line[6..] == path + tail;
    IndexOfIs(path + tail, ' ', |path|);
    TailParts();
    assert (path + tail)[|path|..|path| + 5] == tail[..5];
    assert (path + tail)[|path| + 5..|path| + 8] == tail[5..8];
  }

  lemma TailParts()
    ensures var tail := " << 'EOF'";
            |tail| == 9 && tail[..5] == " << '" && tail[5..8] == DELIMITER && tail[8] == '\'' && '\'' !in DELIMITER
  {
  }

  /** The lines of a document, the empty one after its last line break included. */
  function LinesOf(document: string): seq<string> {
    Split(document, '\n')
  }

  lemma SplitThree(a: string, c: char, b: string, d: string)
    requires c !in a && c !in d
    ensures Split(a + [c] + (b + [c] + d), c) == [a] + Split(b, c) + [d]
  {
    SplitConcat(a, c, b + [c] + d);
    SplitWhole(a, c);
    SplitConcat(b, c, d);
    SplitWhole(d, c);
  }

  lemma CommandLines(path: string, document: string)
    requires '\n' !in path
    ensures Split(Command(path, document), '\n') == [Redirection(path)] + LinesOf(document) + [DELIMITER]
  {
    assert Command(path, document) == Redirection(path) + ['\n'] + (document + ['\n'] + DELIMITER);
    SplitThree(Redirection(path), '\n', document, DELIMITER);
  }

  lemma {:induction false} UntilAppended(lines: seq<string>)
    ensures Until(lines + [DELIMITER], DELIMITER) == Until(lines, DELIMITER)
  {
    if lines != [] {
      assert (lines + [DELIMITER])[1..] == lines[1..] + [DELIMITER];
      UntilAppended(lines[1..]);
    }
  }

  lemma WrittenIs(path: string, document: string)
    requires PathWord(path)
    ensures Written(path, Command(path, document)) == Some(Unlines(Until(LinesOf(document), DELIMITER)))
  {
    CommandLines(path, document);
    RedirectionParsed(path);
    assert ([Redirection(path)] + LinesOf(document) + [DELIMITER])[1..] == LinesOf(document) + [DELIMITER];
    UntilAppended(LinesOf(document));
  }

  /** No line of the document is the delimiter. */
  predicate Safe(document: string) {
    DELIMITER !in LinesOf(document)
  }

  /** A document that does contain the delimiter line is cut off in front of it. */
  lemma CutOff(document: string)
    requires !Safe(document)
    ensures var body := Unlines(Until(LinesOf(document), DELIMITER));
            |body| + 3 <= |document| && body <= document && document[|body|..|body| + 3] == DELIMITER
  {
    var lines := LinesOf(document);
    var body := Until(lines, DELIMITER);
    assert |body| < |lines| by {
      assert |body| == |lines| ==> body == lines;
    }
    var tail := lines[|body| + 1..];
    assert lines == body + ([DELIMITER] + tail);
    UnlinesConcat(body, [DELIMITER] + tail);
    UnlinesSplit(document);
    CutAt(document, Unlines(body), DELIMITER, Unlines(tail));
  }

  lemma CutAt(document: string, front: string, line: string, tail: string)
    requires document + "\n" == front + (line + "\n" + tail)
    ensures |front| + |line| <= |document| && front <= document
    ensures document[|front|..|front| + |line|] == line
  {
    var whole := front + (line + "\n" + tail);
    assert document == whole[..|document|];
    assert whole[|front|..|front| + |line|] == line;
  }

  /** The here-document delivers a document unchanged, plus one line break, exactly when no
      line of the document is the delimiter. */
  lemma TransparentExactly(path: string, document: string)
    requires PathWord(path)
    ensures Written(path, Command(path, document)) == Some(document + "\n") <==> Safe(document)
  {
    WrittenIs(path, document);
    if Safe(document) {
      var body := Until(LinesOf(document), DELIMITER);
      assert body == LinesOf(document);
      UnlinesSplit(document);
    } else {
      CutOff(document);
    }
  }

  // ---------- generated documents ----------

  lemma PreambleUnlikeDelimiter()
    ensures DELIMITER !in PREAMBLE && DELIMITER != "" && DELIMITER[0] != ' '
  {
  }

  /** Services without line breaks never produce the delimiter line. */
  lemma GeneratedSafe(services: seq<ServiceSpec>)
    requires forall i | 0 <= i < |services| :: OneLineService(services[i])
    ensures Safe(ProjectText(services))
  {
    var lines := PREAMBLE + ServicesLines(services);
    ServicesBody(services);
    SplitUnlines(lines);
    PreambleUnlikeDelimiter();
    forall i | 0 <= i < |ServicesLines(services)|
      ensures ServicesLines(services)[i] != DELIMITER
    {
      assert BodyLine(ServicesLines(services)[i]);
    }
  }

  /** A line break in a field can smuggle the delimiter in. */
  lemma LineBreakCutsOff()
    ensures exists services :: Acceptable(services) && !Safe(ProjectText(services))
  {
    var service := ServiceSpec("a", "b\nEOF", [], map[], [], 1, 0);
    BreakInImage(service);
    assert Acceptable([service]);
  }

  lemma BreakInImage(service: ServiceSpec)
    requires service.image == "b\nEOF"
    ensures !Safe(ProjectText([service]))
  {
    ServicesLinesOne(service);
    var lines := PREAMBLE + ServiceLines(service);
    assert lines == lines[..3] + ([lines[3]] + lines[4..]);
    assert lines[3] == ImageLine(service.image);
    assert ImageLine(service.image) == "    image: b" + ['\n'] + DELIMITER;
    LineWithBreak(lines[..3], "    image: b", lines[3], lines[4..]);
  }

  lemma LineWithBreak(before: seq<string>, text: string, line: string, after: seq<string>)
    requires line == text + ['\n'] + DELIMITER
    ensures !Safe(Unlines(before + ([line] + after)))
  {
    UnlinesConcat(before, [line] + after);
    assert Unlines([line] + after) == line + "\n" + Unlines(after);
    Regrouped(Unlines(before), text, ['\n'], DELIMITER, Unlines(after));
    DelimiterLine(Unlines(before) + text, Unlines(after));
  }

  lemma Regrouped(a: string, b: string, sep: string, c: string, d: string)
    ensures a + ((b + sep + c) + sep + d) == (a + b) + sep + (c + sep + d)
  {
  }

  lemma ServicesLinesOne(service: ServiceSpec)
    ensures ServicesLines([service]) == ServiceLines(service)
  {
    assert [service][..0] == [];
    assert ServicesLines([]) == [];
  }

  lemma DelimiterLine(before: string, after: string)
    ensures !Safe(before + ['\n'] + (DELIMITER + ['\n'] + after))
  {
    SplitConcat(before, '\n', DELIMITER + ['\n'] + after);
    SplitConcat(DELIMITER, '\n', after);
    SplitWhole(DELIMITER, '\n');
    var lines := LinesOf(before + ['\n'] + (DELIMITER + ['\n'] + after));
    assert lines[|Split(before, '\n')|] == DELIMITER;
  }
}
