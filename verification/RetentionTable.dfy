/** The published retention schedule of scripts/check-retention-schedule.ts: a table rendered
    from the manifest between two markers, spliced into the document in place, and parsed
    back to check the document against the manifest. */
module RetentionTable {
  import opened Options
  import opened Text

  datatype PurgeAction = Delete | Redact | Expire | NoAction

  datatype Enforcement = RetentionPurge | DlqPurge | ExpiresColumn | Ttl | Operator | External | NoEnforcement

  datatype Rule = Rule(id: string, dataClass: string, table: Option<string>, retentionDays: Option<nat>,
                       purgeAction: PurgeAction, enforcement: Enforcement, legalHoldExempt: bool)

  /** What the document states about one id. */
  datatype Stated = Stated(period: string, enforcement: string)

  function DocBegin(): string { "<!-- retention-schedule:begin -->" }

  function DocEnd(): string { "<!-- retention-schedule:end -->" }

  /** The comment below the begin marker. */
  function Generated(): string { Opening() + Command() + Closing() }

  function Opening(): string { "<!-- Generated by " }

  function Command(): string { "`pnpm run check:retention -- --write`" }

  function Closing(): string { ". Do not edit by hand. -->" }

  function ActionText(a: PurgeAction): string {
    match a
    case Delete => "delete"
    case Redact => "redact"
    case Expire => "expire"
    case NoAction => "none"
  }

  function EnforcementText(e: Enforcement): string {
    match e
    case RetentionPurge => "retention-purge"
    case DlqPurge => "dlq-purge"
    case ExpiresColumn => "expires-column"
    case Ttl => "ttl"
    case Operator => "operator"
    case External => "external"
    case NoEnforcement => "none"
  }

  function Digits(n: nat): string { if n < 10 then ['0' + n as char] else Digits(n / 10) + ['0' + (n % 10) as char] }

  function FormatPeriod(rule: Rule): string {
    if rule.retentionDays.None? then "indefinite" else Digits(rule.retentionDays.value) + " days"
  }

  // ----- The rendered text -----

  function Padded(cell: string): string { [' '] + cell + [' '] }

  function Ticked(cell: string): string { ['`'] + cell + ['`'] }

  /** The cells of a rule's row. */
  function Cells(rule: Rule): seq<string> {
    [Ticked(rule.id), rule.dataClass,
     if rule.table.Some? && rule.table.value != "" then Ticked(rule.table.value) else "\U{2014}",
     FormatPeriod(rule), ActionText(rule.purgeAction), EnforcementText(rule.enforcement),
     if rule.legalHoldExempt then "yes" else "no"]
  }

  const TITLES := ["ID", "Data class", "Table", "Retention", "Action", "Enforced by", "Legal hold"]
  const RULES := ["---", "---", "---", "---", "---", "---", "---"]

  /** A row: padded cells between pipes, with a pipe at either end. */
  function RowParts(cells: seq<string>): seq<string> {
    [""] + seq(|cells|, i requires 0 <= i < |cells| => Padded(cells[i])) + [""]
  }

  function Row(cells: seq<string>): string { Join(RowParts(cells), '|') }

  function Rows(manifest: seq<Rule>): seq<string> { seq(|manifest|, i requires 0 <= i < |manifest| => Row(Cells(manifest[i]))) }

  /** The lines between the marker lines. */
  function Lines(manifest: seq<Rule>): seq<string> {
    ["", Generated(), "", Row(TITLES), Row(RULES)] + Rows(manifest) + [""]
  }

  function Rendered(manifest: seq<Rule>): string { DocBegin() + Block(manifest) + DocEnd() }

  function Block(manifest: seq<Rule>): string { Join([""] + Lines(manifest) + [""], '\n') }

  method RenderScheduleTable(manifest: seq<Rule>) returns (text: string)
    ensures text == Rendered(manifest)
  {
    hide Join, Row, DocBegin, DocEnd, Generated, Cells;
    var lines: seq<string> := [];
    lines := lines + [DocBegin()];
    lines := lines + [""];
    lines := lines + [Generated()];
    lines := lines + [""];
    lines := lines + [Row(TITLES)];
    lines := lines + [Row(RULES)];
    ghost var head := lines;
    for i := 0 to |manifest|
      invariant lines == head + Rows(manifest)[..i]
    {
      lines := lines + [Row(Cells(manifest[i]))];
    }
    lines := lines + [""];
    lines := lines + [DocEnd()];
    assert Rows(manifest)[..|manifest|] == Rows(manifest);
    assert lines == [DocBegin()] + Lines(manifest) + [DocEnd()];
    JoinedLines(Lines(manifest));
    return Join(lines, '\n');
  }

  lemma JoinedLines(lines: seq<string>)
    requires lines != []
    ensures Join([DocBegin()] + lines + [DocEnd()], '\n') == DocBegin() + Join([""] + lines + [""], '\n') + DocEnd()
  {
    hide DocBegin, DocEnd, Join;
    var inner := Join(lines, '\n');
    JoinFront(DocBegin(), lines + [DocEnd()], '\n');
    JoinBack(lines, DocEnd(), '\n');
    assert [DocBegin()] + lines + [DocEnd()] == [DocBegin()] + (lines + [DocEnd()]);
    JoinFront("", lines + [""], '\n');
    JoinBack(lines, "", '\n');
    assert [""] + lines + [""] == [""] + (lines + [""]);
    assert DocBegin() + ("" + ['\n'] + (inner + ['\n'] + "")) + DocEnd() == DocBegin() + ['\n'] + (inner + ['\n'] + DocEnd());
  }

  // ----- Parsing -----

  function Position(s: string, c: char): (r: Option<nat>)
    ensures r.Some? ==> r.value < |s| && s[r.value] == c && Lacks(s[..r.value], c)
    ensures r.None? ==> Lacks(s, c)
  {
    if s == [] then None
    else if s[0] == c then Some(0)
    else
      var rest := Position(s[1..], c);
      assert rest.Some? ==> s[..rest.value + 1] == [s[0]] + s[1..][..rest.value];
      if rest.None? then None else Some(rest.value + 1)
  }

  /** The text of the first non-empty span between two backticks, or nothing. */
  function Quoted(s: string): string {
    if s == [] then []
    else if s[0] == '`' then
      var close := Position(s[1..], '`');
      if close.Some? && close.value > 0 then s[1..][..close.value] else Quoted(s[1..])
    else Quoted(s[1..])
  }

  function Lower(c: char): char { if 'A' <= c <= 'Z' then (c as int - 'A' as int + 'a' as int) as char else c }

  function ToLower(s: string): string { seq(|s|, i requires 0 <= i < |s| => Lower(s[i])) }

  function Between(text: string, begin: string, end: string): Option<string> {
    var start, stop := Find(text, begin), Find(text, end);
    if start.None? || stop.None? || stop.value < start.value then None
    // The source's slice is empty when its bounds cross.
    else if stop.value < start.value + |begin| then Some([])
    else Some(text[start.value + |begin|..stop.value])
  }

  /** The id and the statement a line of the block makes, if it is a row of the table. */
  function ParseLine(line: string): Option<(string, Stated)> {
    if line == [] || line[0] != '|' then None
    else
      var parts := Split(line, '|');
      if |parts| - 2 < 7 then None
      else
        var key := ToLower(Quoted(Trim(parts[1])));
        if key == "" || key == "id" then None
        else Some((key, Stated(Trim(parts[4]), Trim(parts[6]))))
  }

  function ParseLines(lines: seq<string>): map<string, Stated> {
    if lines == [] then map[]
    else
      var before := ParseLines(lines[..|lines| - 1]);
      match ParseLine(lines[|lines| - 1])
      case None => before
      case Some(entry) => before[entry.0 := entry.1]
  }

  function Parsed(doc: string): map<string, Stated> {
    var block := Between(doc, DocBegin(), DocEnd());
    if block.None? then map[] else ParseLines(Split(block.value, '\n'))
  }

  method ParseDocumentTable(doc: string) returns (parsed: map<string, Stated>)
    ensures parsed == Parsed(doc)
  {
    hide Between, Split, ParseLine;
    parsed := map[];
    var block := Between(doc, DocBegin(), DocEnd());
    if block.None? {
      return;
    }
    var lines := Split(block.value, '\n');
    for i := 0 to |lines|
      invariant parsed == ParseLines(lines[..i])
    {
      assert lines[..i + 1][..i] == lines[..i];
      var entry := ParseLine(lines[i]);
      if entry.Some? {
        parsed := parsed[entry.value.0 := entry.value.1];
      }
    }
    assert lines[..|lines|] == lines;
  }

  // ----- Manifests that can be published -----

  /** Lower-case letters, digits and dashes; more than the kebab-case ids the check admits. */
  predicate KebabCase(id: string) {
    id != "" && forall i :: 0 <= i < |id| ==> 'a' <= id[i] <= 'z' || '0' <= id[i] <= '9' || id[i] == '-'
  }

  /** A cell free of pipes, line breaks and the markers. */
  ghost predicate CleanCell(cell: string) {
    Lacks(cell, '|') && Lacks(cell, '\n') && Free(cell, DocBegin()) && Free(cell, DocEnd())
  }

  ghost predicate CleanRule(rule: Rule) {
    && KebabCase(rule.id) && CleanCell(rule.dataClass)
    && (rule.table.Some? ==> CleanCell(Ticked(rule.table.value)))
  }

  /** The id "id" is left out: the parser takes a row of that name for the heading. */
  ghost predicate Publishable(manifest: seq<Rule>) {
    && (forall i :: 0 <= i < |manifest| ==> CleanRule(manifest[i]) && manifest[i].id != "id")
    && (forall i, j :: 0 <= i < j < |manifest| ==> manifest[i].id != manifest[j].id)
  }

  function StatedBy(rule: Rule): Stated { Stated(FormatPeriod(rule), EnforcementText(rule.enforcement)) }

  /** What the document should state. */
  function Published(manifest: seq<Rule>): map<string, Stated> {
    if manifest == [] then map[]
    else
      var last := manifest[|manifest| - 1];
      Published(manifest[..|manifest| - 1])[last.id := StatedBy(last)]
  }

  /** With unique ids, exactly the manifest's ids are published, each with its own rule's statement. */
  lemma {:induction false} PublishedStates(manifest: seq<Rule>)
    requires Publishable(manifest)
    ensures forall i :: 0 <= i < |manifest| ==>
      manifest[i].id in Published(manifest) && Published(manifest)[manifest[i].id] == StatedBy(manifest[i])
    ensures forall id :: id in Published(manifest) ==> exists i :: 0 <= i < |manifest| && manifest[i].id == id
  {
    hide CleanRule, StatedBy;
    if manifest != [] {
      var n := |manifest| - 1;
      PublishedStates(manifest[..n]);
      var before := Published(manifest[..n]);
      assert Published(manifest) == before[manifest[n].id := StatedBy(manifest[n])];
      hide Published;
      forall i | 0 <= i < n ensures manifest[i].id in before && before[manifest[i].id] == StatedBy(manifest[i]) {
        assert manifest[..n][i] == manifest[i];
      }
      forall id | id in Published(manifest) ensures exists i :: 0 <= i < |manifest| && manifest[i].id == id {
        if id != manifest[n].id {
          var i :| 0 <= i < |manifest[..n]| && manifest[..n][i].id == id;
          assert manifest[i].id == id;
        }
      }
    }
  }

  // ----- The markers -----

  lemma MarkerFacts()
    ensures Marker(DocBegin()) && Marker(DocEnd())
    ensures |DocBegin()| == 33 && |DocEnd()| == 31 && DocBegin()[24] == 'b' && DocEnd()[24] == 'e' && DocEnd()[5] == 'r'
  {
  }

  lemma GeneratedFacts()
    ensures |Generated()| > 5 && Generated()[0] == '<' && Generated()[5] == 'G' && Lacks(Generated(), '\n')
    ensures forall i :: 0 < i < |Generated()| ==> Generated()[i] != '<'
  {
    hide Command, Closing;
    assert Opening()[0] == '<' && Opening()[5] == 'G' && Lacks(Opening(), '\n');
    assert forall i :: 0 < i < |Opening()| ==> Opening()[i] != '<';
    hide Opening;
    CommandFacts();
    ClosingFacts();
  }

  lemma CommandFacts()
    ensures Lacks(Command(), '\n') && Lacks(Command(), '<')
  {
  }

  lemma ClosingFacts()
    ensures Lacks(Closing(), '\n') && Lacks(Closing(), '<')
  {
  }

  /** A text that opens a comment at its start only, and differs from the marker, is free of it. */
  lemma CommentFree(text: string, m: string, k: nat)
    requires Marker(m) && k < |m| && k < |text| && text[k] != m[k]
    requires forall i :: 0 < i < |text| ==> text[i] != '<'
    ensures Free(text, m)
  {
    assert text + [] == text;
    forall i ensures !Occurs(text, m, i) {
      OccursShape(text, [], m, i);
      if i == 0 && |m| <= |text| {
        assert text[0..|m|][k] == text[k];
      }
    }
  }

  lemma CommentsFree()
    ensures Free(DocBegin(), DocEnd()) && Free(Generated(), DocEnd())
  {
    hide DocBegin, DocEnd, Generated;
    MarkerFacts();
    GeneratedFacts();
    CommentFree(DocBegin(), DocEnd(), 24);
    CommentFree(Generated(), DocEnd(), 5);
  }

  // ----- Cells -----

  /** What a row needs of a cell: it stays within its line and its column, and hides no end marker. */
  ghost predicate Fits(cell: string) { Lacks(cell, '|') && Lacks(cell, '\n') && Free(cell, DocEnd()) }

  predicate PlainChar(c: char) { c == ' ' || c == '-' || '0' <= c <= '9' || 'A' <= c <= 'z' || c > '~' }

  lemma PlainFits(cell: string)
    requires forall i :: 0 <= i < |cell| ==> PlainChar(cell[i])
    ensures Fits(cell)
  {
    MarkerFacts();
    LacksFree(cell, DocEnd());
  }

  lemma {:induction false} DigitsPlain(n: nat)
    ensures Digits(n) != [] && forall i :: 0 <= i < |Digits(n)| ==> '0' <= Digits(n)[i] <= '9'
  {
    if n >= 10 {
      DigitsPlain(n / 10);
    }
  }

  lemma PeriodFits(rule: Rule)
    ensures Fits(FormatPeriod(rule)) && Tight(FormatPeriod(rule))
  {
    hide Digits, Fits;
    if rule.retentionDays.Some? {
      DigitsPlain(rule.retentionDays.value);
    }
    PlainFits(FormatPeriod(rule));
  }

  lemma ActionFits(a: PurgeAction)
    ensures Fits(ActionText(a))
  {
    hide Fits;
    match a {
      case Delete => PlainFits("delete");
      case Redact => PlainFits("redact");
      case Expire => PlainFits("expire");
      case NoAction => PlainFits("none");
    }
  }

  lemma EnforcementFits(e: Enforcement)
    ensures Fits(EnforcementText(e)) && Tight(EnforcementText(e))
  {
    hide Fits;
    match e {
      case RetentionPurge => PlainFits("retention-purge");
      case DlqPurge => PlainFits("dlq-purge");
      case ExpiresColumn => PlainFits("expires-column");
      case Ttl => PlainFits("ttl");
      case Operator => PlainFits("operator");
      case External => PlainFits("external");
      case NoEnforcement => PlainFits("none");
    }
  }

  lemma CellsFit(rule: Rule)
    requires CleanRule(rule)
    ensures |Cells(rule)| == 7 && forall i :: 0 <= i < 7 ==> Fits(Cells(rule)[i])
  {
    hide DocBegin, DocEnd, Digits, FormatPeriod, ActionText, EnforcementText, Free;
    PeriodFits(rule);
    ActionFits(rule.purgeAction);
    EnforcementFits(rule.enforcement);
    PlainFits(Ticked(rule.id));
    PlainFits("\U{2014}");
    PlainFits("yes");
    PlainFits("no");
  }

  // ----- Rows -----

  lemma {:induction false} JoinLacks(parts: seq<string>, sep: char, c: char)
    requires c != sep && forall i :: 0 <= i < |parts| ==> Lacks(parts[i], c)
    ensures Lacks(Join(parts, sep), c)
  {
    if |parts| > 1 {
      JoinLacks(parts[..|parts| - 1], sep, c);
    }
  }

  /** A row of fitting cells is one line, free of the end marker, and splits into its parts. */
  lemma RowFits(cells: seq<string>)
    requires forall i :: 0 <= i < |cells| ==> Fits(cells[i])
    ensures Lacks(Row(cells), '\n') && Free(Row(cells), DocEnd()) && Split(Row(cells), '|') == RowParts(cells)
    ensures Row(cells) != [] && Row(cells)[0] == '|'
  {
    hide DocEnd, Join, Split, Free;
    var parts := RowParts(cells);
    MarkerFacts();
    forall i | 0 <= i < |parts| ensures Lacks(parts[i], '|') && Lacks(parts[i], '\n') && Free(parts[i], DocEnd()) {
      if 0 < i <= |cells| {
        FreePadded(cells[i - 1], DocEnd());
      } else {
        FreeEmpty(DocEnd());
      }
    }
    JoinLacks(parts, '|', '\n');
    FreeJoin(parts, '|', DocEnd());
    SplitJoin(parts, '|');
    assert parts == [""] + parts[1..];
    JoinFront("", parts[1..], '|');
  }

  lemma QuotedNone(s: string)
    requires Lacks(s, '`')
    ensures Quoted(s) == ""
  {
    if s != [] {
      QuotedNone(s[1..]);
    }
  }

  lemma {:induction false} PositionAt(s: string, k: nat, c: char)
    requires k < |s| && s[k] == c && Lacks(s[..k], c)
    ensures Position(s, c) == Some(k)
  {
    if k > 0 {
      assert s[..k][0] != c;
      assert s[1..][..k - 1] == s[..k][1..];
      PositionAt(s[1..], k - 1, c);
    }
  }

  lemma QuotedTicked(id: string)
    requires id != [] && Lacks(id, '`')
    ensures Quoted(Ticked(id)) == id
  {
    var rest := id + ['`'];
    assert Ticked(id)[1..] == rest;
    assert rest[..|id|] == id && rest[|id|] == '`';
    PositionAt(rest, |id|, '`');
  }

  lemma LowerKebab(id: string)
    requires KebabCase(id)
    ensures ToLower(id) == id
  {
  }

  /** A row states its rule's period and enforcement, unless the rule's id is "id". */
  lemma ParseRow(rule: Rule)
    requires CleanRule(rule)
    ensures ParseLine(Row(Cells(rule))) == if rule.id == "id" then None else Some((rule.id, StatedBy(rule)))
  {
    hide Split, Join, Quoted, ToLower, Digits, FormatPeriod, EnforcementText, ActionText, Trim, Row, Fits, Free;
    CellsFit(rule);
    RowFits(Cells(rule));
    var parts := RowParts(Cells(rule));
    PeriodFits(rule);
    EnforcementFits(rule.enforcement);
    TrimPadded(Ticked(rule.id));
    TrimPadded(FormatPeriod(rule));
    TrimPadded(EnforcementText(rule.enforcement));
    assert parts[1] == Padded(Ticked(rule.id)) && parts[4] == Padded(FormatPeriod(rule));
    assert parts[6] == Padded(EnforcementText(rule.enforcement)) && |parts| == 9;
    QuotedTicked(rule.id);
    LowerKebab(rule.id);
  }

  /** The heading rows hold no id. */
  lemma ParseHeading(cells: seq<string>)
    requires |cells| == 7 && (forall i :: 0 <= i < |cells| ==> Fits(cells[i])) && Lacks(cells[0], '`')
    ensures ParseLine(Row(cells)) == None
  {
    hide Split, Join, Trim, Row, Fits;
    RowFits(cells);
    var parts := RowParts(cells);
    assert parts[1] == Padded(cells[0]);
    TrimLacks(parts[1], '`');
    QuotedNone(Trim(parts[1]));
    assert ToLower("") == "";
  }

  lemma HeadingsFit()
    ensures |TITLES| == |RULES| == 7 && forall i :: 0 <= i < 7 ==> Fits(TITLES[i]) && Fits(RULES[i])
    ensures Lacks(TITLES[0], '`') && Lacks(RULES[0], '`')
  {
    hide Fits;
    PlainFits("ID");
    PlainFits("Data class");
    PlainFits("Table");
    PlainFits("Retention");
    PlainFits("Action");
    PlainFits("Enforced by");
    PlainFits("Legal hold");
    PlainFits("---");
  }

  // ----- The block -----

  lemma LinesFit(manifest: seq<Rule>)
    requires Publishable(manifest)
    ensures var lines := [""] + Lines(manifest) + [""];
      forall i :: 0 <= i < |lines| ==> Lacks(lines[i], '\n') && Free(lines[i], DocEnd())
  {
    hide DocBegin, DocEnd, Generated, Row, Fits, Free, Cells, TITLES, RULES, CleanRule;
    HeadingsFit();
    RowFits(TITLES);
    RowFits(RULES);
    GeneratedFacts();
    CommentsFree();
    MarkerFacts();
    FreeEmpty(DocEnd());
    RowsFit(manifest);
  }

  lemma RowsFit(manifest: seq<Rule>)
    requires Publishable(manifest)
    ensures forall i :: 0 <= i < |manifest| ==> Lacks(Rows(manifest)[i], '\n') && Free(Rows(manifest)[i], DocEnd())
  {
    hide DocEnd, Row, Fits, Free, Cells, CleanRule;
    forall i | 0 <= i < |manifest| ensures Lacks(Rows(manifest)[i], '\n') && Free(Rows(manifest)[i], DocEnd()) {
      CellsFit(manifest[i]);
      RowFits(Cells(manifest[i]));
    }
  }

  lemma {:induction false} ParseRows(head: seq<string>, manifest: seq<Rule>)
    requires ParseLines(head) == map[] && forall i :: 0 <= i < |manifest| ==> CleanRule(manifest[i]) && manifest[i].id != "id"
    ensures ParseLines(head + Rows(manifest)) == Published(manifest)
  {
    hide ParseLine, CleanRule, Row, Cells;
    if manifest == [] {
      assert head + Rows(manifest) == head;
    } else {
      var n := |manifest| - 1;
      ParseRows(head, manifest[..n]);
      ParseRow(manifest[n]);
      var lines := head + Rows(manifest);
      assert lines[..|lines| - 1] == head + Rows(manifest[..n]);
    }
  }

  lemma ParseBlankEnd(lines: seq<string>)
    ensures ParseLines(lines + [""]) == ParseLines(lines)
  {
    assert (lines + [""])[..|lines|] == lines;
  }

  lemma ParseBlock(manifest: seq<Rule>)
    requires Publishable(manifest)
    ensures ParseLines([""] + Lines(manifest) + [""]) == Published(manifest)
  {
    hide ParseLine, CleanRule, Row, Generated, TITLES, RULES;
    var head := ["", "", Generated(), "", Row(TITLES), Row(RULES)];
    HeadingsFit();
    ParseHeading(TITLES);
    ParseHeading(RULES);
    NoRows();
    HeadParsesEmpty(head);
    hide Lines, Rows;
    ParseRows(head, manifest);
    var lines := head + Rows(manifest);
    ParseBlankEnd(lines);
    ParseBlankEnd(lines + [""]);
    LinesAre(manifest);
  }

  lemma LinesAre(manifest: seq<Rule>)
    ensures [""] + Lines(manifest) + [""]
         == ["", "", Generated(), "", Row(TITLES), Row(RULES)] + Rows(manifest) + [""] + [""]
  {
    hide Generated, Row, Rows;
  }

  lemma NoRows()
    ensures ParseLine("") == None && ParseLine(Generated()) == None
  {
    hide Generated;
    GeneratedFacts();
  }

  lemma HeadParsesEmpty(head: seq<string>)
    requires forall i :: 0 <= i < |head| ==> ParseLine(head[i]) == None
    ensures ParseLines(head) == map[]
  {
    hide ParseLine;
    if head != [] {
      HeadParsesEmpty(head[..|head| - 1]);
    }
  }

  lemma BlockFree(manifest: seq<Rule>)
    requires Publishable(manifest)
    ensures Free(Block(manifest), DocEnd()) && Split(Block(manifest), '\n') == [""] + Lines(manifest) + [""]
  {
    hide DocBegin, DocEnd, Lines, Join, Split, Free;
    LinesFit(manifest);
    MarkerFacts();
    FreeJoin([""] + Lines(manifest) + [""], '\n', DocEnd());
    SplitJoin([""] + Lines(manifest) + [""], '\n');
  }

  // ----- The splice -----

  /** The document with the text from the begin marker to the end marker replaced, or nothing when the
      markers are missing or crossed. */
  function Splice(doc: string, generated: string): Option<string> {
    var start, stop := Find(doc, DocBegin()), Find(doc, DocEnd());
    if start.None? || stop.None? || stop.value < start.value then None
    else Some(doc[..start.value] + generated + doc[stop.value + |DocEnd()|..])
  }

  /** Text before the first begin marker, and text after the first end marker, of a document with both in order. */
  ghost predicate Around(doc: string, before: string, after: string) {
    var start, stop := Find(doc, DocBegin()), Find(doc, DocEnd());
    && start.Some? && stop.Some? && start.value <= stop.value
    && before == doc[..start.value] && after == doc[stop.value + |DocEnd()|..]
  }

  lemma BeforeIsFree(doc: string, before: string, after: string)
    requires Around(doc, before, after)
    ensures Free(before, DocBegin()) && Free(before, DocEnd())
  {
    hide DocBegin, DocEnd;
    MarkerFacts();
    var rest := doc[|before|..];
    assert doc == before + rest;
    forall i ensures !Occurs(before, DocBegin(), i) && !Occurs(before, DocEnd(), i) {
      OccursBefore(before, rest, DocBegin(), i);
      OccursBefore(before, rest, DocEnd(), i);
    }
  }

  lemma OccursBefore(a: string, b: string, m: string, i: int)
    ensures Occurs(a, m, i) ==> Occurs(a + b, m, i)
  {
    if Occurs(a, m, i) {
      assert (a + b)[i..i + |m|] == a[i..i + |m|];
    }
  }

  lemma OccursBehind(a: string, b: string, m: string, i: int)
    ensures Occurs(b, m, i) ==> Occurs(a + b, m, |a| + i)
  {
    if Occurs(b, m, i) {
      assert (a + b)[|a| + i..|a| + i + |m|] == b[i..i + |m|];
    }
  }

  /** Where the markers are in a document into which a table has been spliced. */
  lemma FindInSpliced(before: string, manifest: seq<Rule>, after: string)
    requires Publishable(manifest) && Free(before, DocBegin()) && Free(before, DocEnd())
    ensures var doc := before + Rendered(manifest) + after;
      && Find(doc, DocBegin()) == Some(|before|)
      && Find(doc, DocEnd()) == Some(|before| + |DocBegin()| + |Block(manifest)|)
  {
    hide DocBegin, DocEnd, Find, Block, Free, Publishable, Lines;
    MarkerFacts();
    CommentsFree();
    BlockFree(manifest);
    var b, e, block := DocBegin(), DocEnd(), Block(manifest);
    var doc := before + Rendered(manifest) + after;
    FindAfter(before, b, block + e + after);
    assert before + b + (block + e + after) == doc;
    FreeBeforeOpening(before, b, e);
    BlockOpens(manifest);
    FreeAround(before + b, '\n', block[1..], e);
    assert before + b + ['\n'] + block[1..] == before + b + block;
    FindAfter(before + b + block, e, after);
    assert before + b + block + e + after == doc;
  }

  lemma BlockOpens(manifest: seq<Rule>)
    requires Publishable(manifest)
    ensures var block := Block(manifest);
      block != [] && block[0] == '\n' && Free(block[1..], DocEnd())
  {
    hide DocEnd, Lines, Join, Free;
    BlockFree(manifest);
    assert [""] + Lines(manifest) + [""] == [""] + (Lines(manifest) + [""]);
    JoinFront("", Lines(manifest) + [""], '\n');
    FreeSuffix(Block(manifest), 1, DocEnd());
  }

  lemma FreeSuffix(text: string, k: nat, m: string)
    requires Free(text, m) && k <= |text|
    ensures Free(text[k..], m)
  {
    assert text == text[..k] + text[k..];
    forall i ensures !Occurs(text[k..], m, i) {
      OccursBehind(text[..k], text[k..], m, i);
    }
  }

  /** A splice keeps all text outside the markers, and the document keeps its markers. */
  lemma SpliceKeepsOutside(doc: string, manifest: seq<Rule>, before: string, after: string)
    requires Publishable(manifest) && Around(doc, before, after)
    ensures Splice(doc, Rendered(manifest)) == Some(before + Rendered(manifest) + after)
    ensures Around(before + Rendered(manifest) + after, before, after)
  {
    hide DocBegin, DocEnd, Find, Block, Free;
    BeforeIsFree(doc, before, after);
    FindInSpliced(before, manifest, after);
    var doc' := before + Rendered(manifest) + after;
    assert doc'[..|before|] == before;
    assert doc'[|before| + |Rendered(manifest)|..] == after;
  }

  /** Splicing twice is splicing the second table alone; with one table, doing it again changes nothing. */
  lemma SpliceTwice(doc: string, first: seq<Rule>, second: seq<Rule>, once: string)
    requires Publishable(first) && Publishable(second) && Splice(doc, Rendered(first)) == Some(once)
    ensures Splice(once, Rendered(second)) == Splice(doc, Rendered(second))
    ensures Splice(once, Rendered(first)) == Some(once)
  {
    hide DocBegin, DocEnd, Find, Block, Rendered;
    var before, after := doc[..Find(doc, DocBegin()).value], doc[Find(doc, DocEnd()).value + |DocEnd()|..];
    SpliceKeepsOutside(doc, first, before, after);
    SpliceKeepsOutside(doc, second, before, after);
    SpliceKeepsOutside(once, first, before, after);
    SpliceKeepsOutside(once, second, before, after);
  }

  /** Parsing a document gives back what was rendered into it. */
  lemma ParseRendered(before: string, manifest: seq<Rule>, after: string)
    requires Publishable(manifest) && Free(before, DocBegin()) && Free(before, DocEnd())
    ensures Parsed(before + Rendered(manifest) + after) == Published(manifest)
  {
    hide DocBegin, DocEnd, Find, Block, Free, ParseLines, Split, Publishable, Lines, Published;
    FindInSpliced(before, manifest, after);
    var doc := before + Rendered(manifest) + after;
    var low := |before| + |DocBegin()|;
    assert doc[low..low + |Block(manifest)|] == Block(manifest);
    BlockFree(manifest);
    ParseBlock(manifest);
  }

  /** After a successful write the document states exactly the manifest. */
  lemma WrittenDocumentStatesManifest(doc: string, manifest: seq<Rule>, written: string)
    requires Publishable(manifest) && Splice(doc, Rendered(manifest)) == Some(written)
    ensures Parsed(written) == Published(manifest)
  {
    hide DocBegin, DocEnd, Find, Block, Rendered, Parsed, Free;
    var before, after := doc[..Find(doc, DocBegin()).value], doc[Find(doc, DocEnd()).value + |DocEnd()|..];
    BeforeIsFree(doc, before, after);
    ParseRendered(before, manifest, after);
  }

  // ----- checkDocument -----

  datatype Problem =
    | MissingMarkers
    | NoScheduleRows
    | NotListed(id: string)
    | PeriodDiffers(id: string, stated: string, expected: string)
    | EnforcementDiffers(id: string, stated: string, expected: string)
    | UnknownId(id: string)
    | MissingHeading(heading: string)

  const HEADINGS := ["## Legal hold", "## Exemptions", "## Answering a subject-access request"]

  predicate HasMarkers(doc: string) { Find(doc, DocBegin()).Some? && Find(doc, DocEnd()).Some? }

  /** The problems one rule has with what the document states. */
  function RuleProblems(rule: Rule, parsed: map<string, Stated>): seq<Problem> {
    if rule.id !in parsed then [NotListed(rule.id)]
    else
      var row := parsed[rule.id];
      (if row.period != FormatPeriod(rule) then [PeriodDiffers(rule.id, row.period, FormatPeriod(rule))] else [])
      + (if row.enforcement != EnforcementText(rule.enforcement)
         then [EnforcementDiffers(rule.id, row.enforcement, EnforcementText(rule.enforcement))] else [])
  }

  predicate Declares(manifest: seq<Rule>, id: string) { exists i :: 0 <= i < |manifest| && manifest[i].id == id }

  /** The problems due for a document, in any order. */
  ghost predicate Due(manifest: seq<Rule>, doc: string, p: Problem) {
    if !HasMarkers(doc) then p == MissingMarkers
    else if Parsed(doc) == map[] then p == NoScheduleRows
    else
      || (exists i :: 0 <= i < |manifest| && p in RuleProblems(manifest[i], Parsed(doc)))
      || (p.UnknownId? && p.id in Parsed(doc) && !Declares(manifest, p.id))
      || (p.MissingHeading? && p.heading in HEADINGS && Find(doc, p.heading).None?)
  }

  method CheckDocument(manifest: seq<Rule>, doc: string) returns (problems: seq<Problem>)
    ensures forall p :: p in problems <==> Due(manifest, doc, p)
  {
    hide Find, Parsed, DocBegin, DocEnd, RuleProblems;
    if !HasMarkers(doc) {
      return [MissingMarkers];
    }
    var parsed := ParseDocumentTable(doc);
    if |parsed| == 0 {
      return [NoScheduleRows];
    }
    var byRule := CheckRules(manifest, parsed);
    var unknown := UnknownIds(manifest, parsed);
    var missing := MissingHeadings(doc);
    problems := byRule + unknown + missing;
  }

  method CheckRules(manifest: seq<Rule>, parsed: map<string, Stated>) returns (problems: seq<Problem>)
    ensures forall p :: p in problems <==> exists i :: 0 <= i < |manifest| && p in RuleProblems(manifest[i], parsed)
  {
    hide RuleProblems;
    problems := [];
    for i := 0 to |manifest|
      invariant forall p :: p in problems <==> exists k :: 0 <= k < i && p in RuleProblems(manifest[k], parsed)
    {
      var found := CheckRule(manifest[i], parsed);
      problems := problems + found;
    }
  }

  method CheckRule(rule: Rule, parsed: map<string, Stated>) returns (problems: seq<Problem>)
    ensures problems == RuleProblems(rule, parsed)
  {
    if rule.id !in parsed {
      return [NotListed(rule.id)];
    }
    problems := [];
    var row, expected := parsed[rule.id], FormatPeriod(rule);
    if row.period != expected {
      problems := problems + [PeriodDiffers(rule.id, row.period, expected)];
    }
    if row.enforcement != EnforcementText(rule.enforcement) {
      problems := problems + [EnforcementDiffers(rule.id, row.enforcement, EnforcementText(rule.enforcement))];
    }
  }

  method UnknownIds(manifest: seq<Rule>, parsed: map<string, Stated>) returns (problems: seq<Problem>)
    ensures forall p :: p in problems <==> p.UnknownId? && p.id in parsed && !Declares(manifest, p.id)
  {
    hide Declares;
    problems := [];
    var left := parsed.Keys;
    while left != {}
      invariant left <= parsed.Keys
      invariant forall p :: p in problems <==> p.UnknownId? && p.id in parsed.Keys - left && !Declares(manifest, p.id)
      decreases left
    {
      var id :| id in left;
      left := left - {id};
      if !Declares(manifest, id) {
        problems := problems + [UnknownId(id)];
      }
    }
  }

  method MissingHeadings(doc: string) returns (problems: seq<Problem>)
    ensures forall p :: p in problems <==> p.MissingHeading? && p.heading in HEADINGS && Find(doc, p.heading).None?
  {
    hide Find;
    problems := [];
    for i := 0 to |HEADINGS|
      invariant forall p :: p in problems <==> p.MissingHeading? && p.heading in HEADINGS[..i] && Find(doc, p.heading).None?
    {
      assert HEADINGS[..i + 1] == HEADINGS[..i] + [HEADINGS[i]];
      if Find(doc, HEADINGS[i]).None? {
        problems := problems + [MissingHeading(HEADINGS[i])];
      }
    }
    assert HEADINGS[..|HEADINGS|] == HEADINGS;
  }

  /** A document just written from a non-empty manifest can only lack prose headings. */
  lemma WrittenDocumentPasses(doc: string, manifest: seq<Rule>, written: string, p: Problem)
    requires Publishable(manifest) && manifest != [] && Splice(doc, Rendered(manifest)) == Some(written)
    ensures Due(manifest, written, p) ==> p.MissingHeading?
  {
    hide DocBegin, DocEnd, Find, Block, Rendered, Parsed, Free, FormatPeriod, EnforcementText;
    var before, after := doc[..Find(doc, DocBegin()).value], doc[Find(doc, DocEnd()).value + |DocEnd()|..];
    SpliceKeepsOutside(doc, manifest, before, after);
    WrittenDocumentStatesManifest(doc, manifest, written);
    PublishedStates(manifest);
    hide Publishable;
    assert manifest[0].id in Published(manifest);
    hide Published;
    forall i | 0 <= i < |manifest| ensures RuleProblems(manifest[i], Published(manifest)) == [] {
    }
  }
}
