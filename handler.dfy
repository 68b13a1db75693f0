/** `handleMessage` of main.go with logging, JSON decoding and the tree-sitter calls taken out:
    which methods make the server send a message, how the error captures of the syntax tree
    become diagnostics, and how didChange splices a line into the document text. */
module Handler {
  import opened Wrappers
  import opened Digits
  import opened Lines

  /* ---------------- diagnostics ---------------- */

  /** One capture of the `((ERROR) @error)` query: where the error node starts and ends,
      in tree-sitter's unsigned rows and columns. */
  datatype Capture = Capture(startRow: nat, startColumn: nat, endRow: nat, endColumn: nat)

  /** One match of the query: its captures, in order. */
  type Match = seq<Capture>

  datatype Position = Position(line: int, character: int)

  datatype Range = Range(start: Position, end: Position)

  datatype Diagnostic = Diagnostic(range: Range, severity: int, message: string)

  /** The LSP `DiagnosticSeverity` code of an error. */
  const ErrorSeverity: int := 1

  /** The message text before the row number. */
  const ErrorPrefix: string := "Error on line "

  /** The diagnostic built for one capture: both positions shifted back by one row and one
      column, and a message naming the capture's own start row. */
  function ToDiagnostic(c: Capture): (d: Diagnostic)
    ensures d.range.start.line + 1 == c.startRow && d.range.start.character + 1 == c.startColumn
    ensures d.range.end.line + 1 == c.endRow && d.range.end.character + 1 == c.endColumn
    ensures d.severity == ErrorSeverity
    ensures |ErrorPrefix| < |d.message| && d.message[..|ErrorPrefix|] == ErrorPrefix
  {
    Diagnostic(
      Range(Position(c.startRow - 1, c.startColumn - 1), Position(c.endRow - 1, c.endColumn - 1)),
      ErrorSeverity,
      ErrorPrefix + Decimal(c.startRow))
  }

  /** The diagnostics of one match, one per capture. */
  function MatchDiagnostics(m: Match): (ds: seq<Diagnostic>)
    ensures |ds| == |m|
    ensures forall k :: 0 <= k < |m| ==> ds[k] == ToDiagnostic(m[k])
  {
    seq(|m|, k requires 0 <= k < |m| => ToDiagnostic(m[k]))
  }

  /** The diagnostics of all matches, match by match and capture by capture. */
  function DiagnosticsOf(matches: seq<Match>): seq<Diagnostic> {
    if matches == [] then []
    else DiagnosticsOf(matches[..|matches| - 1]) + MatchDiagnostics(matches[|matches| - 1])
  }

  /** The number of captures in all matches. */
  function CaptureCount(matches: seq<Match>): nat {
    if matches == [] then 0 else CaptureCount(matches[..|matches| - 1]) + |matches[|matches| - 1]|
  }

  /** The nested loops of the didOpen handler, appending one diagnostic per capture. */
  method BuildDiagnostics(matches: seq<Match>) returns (diagnostics: seq<Diagnostic>)
    ensures diagnostics == DiagnosticsOf(matches)
  {
    diagnostics := [];
    var i := 0;
    while i < |matches|
      invariant 0 <= i <= |matches|
      invariant diagnostics == DiagnosticsOf(matches[..i])
    {
      var j := 0;
      while j < |matches[i]|
        invariant 0 <= j <= |matches[i]|
        invariant diagnostics == DiagnosticsOf(matches[..i]) + MatchDiagnostics(matches[i][..j])
      {
        var capture := matches[i][j];
        var severity := 1;
        var diagnostic := Diagnostic(
          Range(Position(capture.startRow - 1, capture.startColumn - 1),
                Position(capture.endRow - 1, capture.endColumn - 1)),
          severity,
          ErrorPrefix + Decimal(capture.startRow));
        diagnostics := diagnostics + [diagnostic];
        j := j + 1;
      }
      assert matches[i][..j] == matches[i];
      assert matches[..i + 1][..i] == matches[..i];
      i := i + 1;
    }
    assert matches[..i] == matches;
  }

  /** There is one diagnostic per capture. */
  lemma {:induction false} DiagnosticCount(matches: seq<Match>)
    ensures |DiagnosticsOf(matches)| == CaptureCount(matches)
    decreases |matches|
  {
    if matches != [] {
      DiagnosticCount(matches[..|matches| - 1]);
    }
  }

  /** Capture j of match i gives the diagnostic after those of all earlier captures: its range
      is the capture's start and end, each row and column less one, it is an error, and its
      message names the unshifted start row. */
  lemma {:induction false} DiagnosticAt(matches: seq<Match>, i: nat, j: nat)
    requires i < |matches| && j < |matches[i]|
    ensures CaptureCount(matches[..i]) + j < |DiagnosticsOf(matches)|
    ensures
      var c := matches[i][j];
      var d := DiagnosticsOf(matches)[CaptureCount(matches[..i]) + j];
      d.range == Range(Position(c.startRow - 1, c.startColumn - 1), Position(c.endRow - 1, c.endColumn - 1)) &&
      d.severity == ErrorSeverity &&
      d.message == ErrorPrefix + Decimal(c.startRow)
    decreases |matches|
  {
    var last := |matches| - 1;
    var init := matches[..last];
    DiagnosticCount(init);
    DiagnosticCount(matches);
    if i < last {
      assert init[i] == matches[i] && init[..i] == matches[..i];
      DiagnosticAt(init, i, j);
    } else {
      assert matches[..i] == init;
    }
  }

  /** Every diagnostic is an error. */
  lemma {:induction false} AllErrors(matches: seq<Match>)
    ensures forall k :: 0 <= k < |DiagnosticsOf(matches)| ==> DiagnosticsOf(matches)[k].severity == ErrorSeverity
    decreases |matches|
  {
    if matches != [] {
      AllErrors(matches[..|matches| - 1]);
    }
  }

  /** The row a diagnostic's message names is one more than the line its range starts on. */
  lemma MessageNamesUnshiftedRow(c: Capture)
    ensures
      var d := ToDiagnostic(c);
      |d.message| > |ErrorPrefix| && d.message[..|ErrorPrefix|] == ErrorPrefix &&
      AllDigits(d.message[|ErrorPrefix|..]) && ValueOf(d.message[|ErrorPrefix|..]) == d.range.start.line + 1
  {
    var d := ToDiagnostic(c);
    assert d.message[|ErrorPrefix|..] == Decimal(c.startRow);
    ValueOfDecimal(c.startRow);
  }

  /** A row or column 0 of an error node becomes -1 in its diagnostic. */
  lemma ZeroRowOrColumnIsMinusOne(c: Capture)
    ensures c.startRow == 0 ==> ToDiagnostic(c).range.start.line == -1
    ensures c.startColumn == 0 ==> ToDiagnostic(c).range.start.character == -1
    ensures c.endRow == 0 ==> ToDiagnostic(c).range.end.line == -1
    ensures c.endColumn == 0 ==> ToDiagnostic(c).range.end.character == -1
  {
  }

  /* ---------------- the didChange splice ---------------- */

  /** main.go's splice: split the text into lines, overwrite the one at index `line` in the
      slice, join the lines again. Go panics when the index is outside the slice. */
  method SpliceLine(text: string, line: int, replacement: string) returns (spliced: string)
    requires 0 <= line < |Split(text)|
    ensures spliced == Join(Split(text)[line := replacement])
    ensures NoNewline(replacement) ==> Split(spliced) == Split(text)[line := replacement]
  {
    var parts := Split(text);
    var slice := new string[|parts|](k requires 0 <= k < |parts| => parts[k]);
    slice[line] := replacement;
    assert slice[..] == parts[line := replacement];
    spliced := Join(slice[..]);
    if NoNewline(replacement) {
      ReplaceLine(text, line, replacement);
    }
  }

  /** In an empty document only line 0 exists, and splicing it gives the replacement. */
  lemma SpliceOfEmpty(replacement: string)
    ensures Split("") == [""]
    ensures Join(Split("")[0 := replacement]) == replacement
  {
  }

  /* ---------------- dispatch ---------------- */

  /** The cases of the switch on the method name. */
  datatype Kind = Initialize | DidOpen | DidChange | SemanticTokensFull | Shutdown | Unhandled

  /** The case label of each handled kind. */
  function MethodName(k: Kind): string
    requires k != Unhandled
  {
    match k
    case Initialize => "initialize"
    case DidOpen => "textDocument/didOpen"
    case DidChange => "textDocument/didChange"
    case SemanticTokensFull => "textDocument/semanticTokens/full"
    case Shutdown => "shutdown"
  }

  /** The case a method name selects: the kind whose label it is, and no case when it is no
      label at all. */
  function KindOf(name: string): (k: Kind)
    ensures k != Unhandled ==> MethodName(k) == name
    ensures k == Unhandled ==> forall h :: h != Unhandled ==> MethodName(h) != name
  {
    if name == "initialize" then Initialize
    else if name == "textDocument/didOpen" then DidOpen
    else if name == "textDocument/didChange" then DidChange
    else if name == "textDocument/semanticTokens/full" then SemanticTokensFull
    else if name == "shutdown" then Shutdown
    else Unhandled
  }

  /** The labels are distinct, so each one selects its own case. */
  lemma KindOfMethodName(k: Kind)
    requires k != Unhandled
    ensures KindOf(MethodName(k)) == k
  {
  }


  /** The first content change of a didChange: where its range starts, and its text. */
  datatype ContentChange = ContentChange(startLine: int, text: string)

  /** The decoded fields the handler reads. A field that is absent or does not decode keeps
      Go's zero value; a nil pointer is None. */
  datatype Params = Params(
    id: Option<int>,
    clientVersion: Option<string>,
    tokenTypes: seq<string>,
    tokenModifiers: seq<string>,
    uri: string,
    version: int,
    text: string,
    contentChanges: seq<ContentChange>)

  datatype Message = Message(name: string, params: Params)

  /** What the handler sends back. */
  datatype Outgoing =
    | InitializeResponse(id: int, positionEncoding: string, tokenTypes: seq<string>, tokenModifiers: seq<string>)
    | PublishDiagnostics(uri: string, version: int, diagnostics: seq<Diagnostic>)

  /** The messages on which `handleMessage` panics: initialize dereferences the request id and
      the client's version, and didChange indexes the first content change and then the line
      it names in the split of a text that is always "". */
  predicate Panics(m: Message) {
    match KindOf(m.name)
    case Initialize => m.params.id.None? || m.params.clientVersion.None?
    case DidChange =>
      |m.params.contentChanges| == 0 || !(0 <= m.params.contentChanges[0].startLine < |Split("")|)
    case _ => false
  }

  /** `handleMessage` for one decoded message. `errorMatches` stands for parsing a text with
      tree-sitter and running the error query on it. Returns what is sent and the document
      text the handler ends with (which it only logs). */
  method HandleMessage(message: Message, errorMatches: string -> seq<Match>)
    returns (sent: seq<Outgoing>, fileContents: string)
    requires !Panics(message)
    ensures |sent| == 1 <==> KindOf(message.name) in {Initialize, DidOpen}
    ensures |sent| <= 1
    ensures KindOf(message.name) == Initialize ==>
      sent == [InitializeResponse(message.params.id.value, "utf-16",
                                  message.params.tokenTypes, message.params.tokenModifiers)]
    ensures KindOf(message.name) == DidOpen ==>
      sent == [PublishDiagnostics(message.params.uri, message.params.version,
                                  DiagnosticsOf(errorMatches(message.params.text)))]
    ensures KindOf(message.name) == DidOpen ==> fileContents == message.params.text
    ensures KindOf(message.name) == DidChange ==> fileContents == message.params.contentChanges[0].text
    ensures KindOf(message.name) !in {DidOpen, DidChange} ==> fileContents == ""
  {
    fileContents := "";
    var uri := "";
    var version := 0;
    sent := [];
    match KindOf(message.name)
    case Initialize =>
      var response := InitializeResponse(message.params.id.value, "utf-16",
                                         message.params.tokenTypes, message.params.tokenModifiers);
      sent := [response];
    case DidOpen =>
      uri := message.params.uri;
      version := message.params.version;
      fileContents := message.params.text;
      var diagnostics := BuildDiagnostics(errorMatches(fileContents));
      sent := [PublishDiagnostics(uri, version, diagnostics)];
    case DidChange =>
      version := message.params.version;
      var change := message.params.contentChanges[0];
      SpliceOfEmpty(change.text);
      fileContents := SpliceLine(fileContents, change.startLine, change.text);
    case SemanticTokensFull =>
    case Shutdown =>
    case Unhandled =>
  }
}
