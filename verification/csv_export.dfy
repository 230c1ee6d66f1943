/** The admin-only registration export: an 18-column CSV text with a
    byte-order mark, one quoted line per registration under an unquoted
    header line. */
module CsvExport {
  import opened Values
  import opened Text
  import opened Seqs
  import Users
  import opened Registrations

  /** The header row, in column order. */
  const Headers: seq<string> := [
    "報名編號", "使用者姓名", "使用者信箱", "聯絡地址", "票種", "應繳金額",
    "繳費狀態", "匯款後五碼", "匯款日期", "參與身分", "發表形式", "Day1用餐",
    "Day2用餐", "晚宴出席", "飲食偏好", "特殊飲食說明", "備註", "報名時間"]

  const ColumnCount: nat := 18

  /** Column index of the remarks cell. */
  const RemarksColumn: nat := 16

  /** The byte-order mark U+FEFF put in front of the text for spreadsheet programs. */
  const Bom: char := '\U{FEFF}'

  /** The registrations query asks for at most this many documents. */
  const FetchLimit: nat := 5000

  const CsvContentType: string := "text/csv; charset=utf-8"
  const CsvDisposition: string := "attachment; filename=\"registrations.csv\""
  const ForbiddenMessage: string := "Forbidden. Admin access required."
  const FailureMessage: string := "Failed to export CSV"

  datatype Response =
    | JsonError(status: nat, message: string)
    | CsvFile(status: nat, contentType: string, contentDisposition: string, body: string)

  predicate IsLineBreak(c: char) {
    c == '\n' || c == '\r'
  }

  /** `s.replace(/(\r\n|\n|\r)/gm, ' ')`: every CR LF pair, lone LF and lone CR
      becomes one space; the regular expression tries CR LF first. */
  function CollapseLineBreaks(s: string): (r: string)
    ensures forall i :: 0 <= i < |r| ==> !IsLineBreak(r[i])
    ensures |r| <= |s|
    decreases |s|
  {
    if |s| == 0 then ""
    else if s[0] == '\r' && |s| >= 2 && s[1] == '\n' then " " + CollapseLineBreaks(s[2..])
    else if IsLineBreak(s[0]) then " " + CollapseLineBreaks(s[1..])
    else [s[0]] + CollapseLineBreaks(s[1..])
  }

  /** Text without line breaks passes through unchanged, so collapsing twice
      is collapsing once. */
  lemma {:induction false} CollapseKeepsPlainText(s: string)
    requires forall i :: 0 <= i < |s| ==> !IsLineBreak(s[i])
    ensures CollapseLineBreaks(s) == s
    decreases |s|
  {
    if |s| > 0 {
      CollapseKeepsPlainText(s[1..]);
      assert s == [s[0]] + s[1..];
    }
  }

  /** The replacement works piece by piece: each line break becomes exactly one
      space and every other character is kept, wherever the text is cut, except
      between the CR and the LF of one CR LF pair (see `CrLfIsOneBreak`). */
  lemma {:induction false} CollapseConcat(a: string, b: string)
    requires |a| == 0 || |b| == 0 || !(a[|a| - 1] == '\r' && b[0] == '\n')
    ensures CollapseLineBreaks(a + b) == CollapseLineBreaks(a) + CollapseLineBreaks(b)
    decreases |a|
  {
    var s := a + b;
    if |a| == 0 {
      assert s == b;
    } else if |b| == 0 {
      assert s == a;
    } else {
      var k := HeadLength(a);
      assert HeadLength(s) == k && HeadOutput(s) == HeadOutput(a) by {
        assert s[0] == a[0];
        if a[0] == '\r' {
          if |a| >= 2 {
            assert s[1] == a[1];
          } else {
            assert s[1] == b[0];
          }
        }
      }
      assert s[k..] == a[k..] + b;
      assert |a[k..]| > 0 ==> a[k..][|a[k..]| - 1] == a[|a| - 1];
      CollapseConcat(a[k..], b);
      CollapseUnfold(s);
      CollapseUnfold(a);
    }
  }

  /** The one cut `CollapseConcat` excludes really does differ: CR LF is one
      break, a CR and an LF apart are two. */
  lemma CrLfIsOneBreak()
    ensures CollapseLineBreaks("\r" + "\n") == " "
    ensures CollapseLineBreaks("\r") + CollapseLineBreaks("\n") == "  "
  {
    CollapseUnfold("\r\n");
    CollapseUnfold("\r");
    CollapseUnfold("\n");
  }

  /** How many characters the replacement consumes at the front of `s`. */
  function HeadLength(s: string): nat
    requires |s| > 0
  {
    if s[0] == '\r' && |s| >= 2 && s[1] == '\n' then 2 else 1
  }

  /** What the replacement writes for the characters it consumes at the front of `s`. */
  function HeadOutput(s: string): string
    requires |s| > 0
  {
    if IsLineBreak(s[0]) then " " else [s[0]]
  }

  lemma CollapseUnfold(s: string)
    requires |s| > 0
    ensures HeadLength(s) <= |s|
    ensures CollapseLineBreaks(s) == HeadOutput(s) + CollapseLineBreaks(s[HeadLength(s)..])
  {
  }

  /** The three line-break forms, and any other character, on their own. */
  lemma CollapseUnits(c: char)
    ensures CollapseLineBreaks("\r\n") == " "
    ensures CollapseLineBreaks("\n") == " "
    ensures CollapseLineBreaks("\r") == " "
    ensures !IsLineBreak(c) ==> CollapseLineBreaks([c]) == [c]
  {
    assert "\r\n"[2..] == "";
  }

  /** `doc.amount || 0`: a missing or zero amount is written as 0. */
  function AmountCell(a: Number): (r: string)
    ensures IsIntText(r)
    ensures a.NoNumber? ==> r == "0"
    ensures var v := if a.Num? then a.n else 0; ParseInt(r) == v
  {
    var v := if a.Num? then a.n else 0;
    IntToStringRoundTrip(v);
    IntToString(v)
  }

  /** `participantRole === 'other' ? participantRoleOther : participantRole || ''`:
      the free-text role for "other", interpolated as is (so a missing one
      shows as "null" or "undefined"), otherwise the role or "". */
  function ParticipantRoleCell(role: Field, other: Field): (r: string)
    ensures role == Str("other") && other.Str? ==> r == other.text
    ensures role == Str("other") && other == Null ==> r == "null"
    ensures role == Str("other") && other == Undefined ==> r == "undefined"
    ensures role != Str("other") ==> r == role.OrEmpty()
  {
    if role == Str("other") then other.Interpolate() else role.OrEmpty()
  }

  /** The 18 cells of a registration's line, in header order. */
  function Row(doc: Registration): (cells: seq<string>)
    ensures |cells| == |Headers| == ColumnCount
    ensures cells[0] == doc.id
    ensures cells[5] == AmountCell(doc.amount)
    ensures cells[RemarksColumn] == CollapseLineBreaks(doc.remarks.OrEmpty())
    ensures cells[17] == doc.createdAt
    ensures cells[9] == ParticipantRoleCell(doc.participantRole, doc.participantRoleOther)
    ensures forall j :: 1 <= j < RemarksColumn && j != 5 && j != 9 ==> cells[j] == FieldOf(doc, j).OrEmpty()
  {
    seq(ColumnCount, j requires 0 <= j < ColumnCount => Cell(doc, j))
  }

  /** Cell `j` of a registration's line. */
  function Cell(doc: Registration, j: nat): string
    requires j < ColumnCount
  {
    if j == 0 then doc.id
    else if j == 5 then AmountCell(doc.amount)
    else if j == 9 then ParticipantRoleCell(doc.participantRole, doc.participantRoleOther)
    else if j == RemarksColumn then CollapseLineBreaks(doc.remarks.OrEmpty())
    else if j == 17 then doc.createdAt
    else FieldOf(doc, j).OrEmpty()
  }

  /** The document field a plain text column reads (columns 1 to 15 other than 5 and 9;
      `paymentDate ? <date> : ''` is `paymentDate || ''` once dates are opaque). */
  function FieldOf(doc: Registration, j: nat): Field {
    match j
    case 1 => if doc.user.Registrant? then doc.user.name else Undefined
    case 2 => if doc.user.Registrant? then doc.user.email else Undefined
    case 3 => doc.contactAddress
    case 4 => doc.ticketType
    case 6 => doc.paymentStatus
    case 7 => doc.paymentAccountLast5
    case 8 => doc.paymentDate
    case 10 => doc.presentationType
    case 11 => doc.mealDay1
    case 12 => doc.mealDay2
    case 13 => doc.banquet
    case 14 => doc.dietaryPreference
    case 15 => doc.dietaryOther
    case _ => doc.remarks
  }

  /** `"${cell}"`: the cell between double quotes; quotes inside are not escaped. */
  function Quote(cell: string): (r: string)
    ensures |r| == |cell| + 2
    ensures r[0] == '"' && r[|r| - 1] == '"' && r[1..|r| - 1] == cell
  {
    "\"" + cell + "\""
  }

  /** A quoted field with its quotes taken off. */
  function Unquote(field: string): string {
    if |field| >= 2 then field[1..|field| - 1] else field
  }

  function QuoteAll(cells: seq<string>): (r: seq<string>)
    ensures |r| == |cells|
    ensures forall j :: 0 <= j < |r| ==> r[j] == Quote(cells[j])
  {
    seq(|cells|, j requires 0 <= j < |cells| => Quote(cells[j]))
  }

  /** The unquoted header line. */
  function HeaderLine(): string {
    Join(Headers, ',')
  }

  /** A registration's line: every cell quoted, joined by commas. */
  function RowLine(doc: Registration): string {
    Join(QuoteAll(Row(doc)), ',')
  }

  function RowLines(docs: seq<Registration>): (lines: seq<string>)
    ensures |lines| == |docs|
    ensures forall i :: 0 <= i < |docs| ==> lines[i] == RowLine(docs[i])
  {
    seq(|docs|, i requires 0 <= i < |docs| => RowLine(docs[i]))
  }

  /** The CSV text without the byte-order mark: header line, then one line per document. */
  function Content(docs: seq<Registration>): string {
    Join([HeaderLine()] + RowLines(docs), '\n')
  }

  /** The export endpoint. `found` is the result of the registrations query
      over the whole collection, `None` when the query throws. */
  function Export(caller: Users.Caller, found: Option<seq<Registration>>): (r: Response)
    ensures r == JsonError(403, ForbiddenMessage) <==> !Users.IsAdmin(caller)
    ensures r.CsvFile? <==> Users.IsAdmin(caller) && found.Some?
    ensures Users.IsAdmin(caller) && found.None? ==> r == JsonError(500, FailureMessage)
    ensures r.CsvFile? ==>
              && r.status == 200
              && r.contentType == CsvContentType
              && r.contentDisposition == CsvDisposition
              && |r.body| >= 1 && r.body[0] == Bom
              && r.body[1..] == Content(Take(found.value, FetchLimit))
  {
    if !Users.IsAdmin(caller) then JsonError(403, ForbiddenMessage)
    else match found
      case None => JsonError(500, FailureMessage)
      case Some(all) =>
        var docs := Take(all, FetchLimit);
        CsvFile(200, CsvContentType, CsvDisposition, [Bom] + Content(docs))
  }

  /** Reading a CSV line back: split at commas and strip the quotes. */
  function ParseLine(line: string): seq<string> {
    var fields := Split(line, ',');
    seq(|fields|, j requires 0 <= j < |fields| => Unquote(fields[j]))
  }

  lemma {:induction false} JoinAvoids(parts: seq<string>, sep: char, c: char)
    requires c != sep
    requires forall j :: 0 <= j < |parts| ==> c !in parts[j]
    ensures c !in Join(parts, sep)
    decreases |parts|
  {
    if |parts| > 1 {
      JoinAvoids(parts[1..], sep, c);
    }
  }

  lemma QuoteAvoids(cell: string, c: char)
    requires c != '"' && c !in cell
    ensures c !in Quote(cell)
  {
  }

  /** No comma in any cell: the line splits back into its cells. */
  lemma RowRoundTrip(doc: Registration)
    requires forall j :: 0 <= j < ColumnCount ==> ',' !in Row(doc)[j]
    ensures ParseLine(RowLine(doc)) == Row(doc)
  {
    var cells := Row(doc);
    var quoted := QuoteAll(cells);
    forall j | 0 <= j < |quoted| ensures ',' !in quoted[j] {
      QuoteAvoids(cells[j], ',');
    }
    SplitJoin(quoted, ',');
  }

  /** A document whose cells, the remarks aside, carry no line feed. */
  predicate SingleLine(doc: Registration) {
    forall j :: 0 <= j < ColumnCount && j != RemarksColumn ==> '\n' !in Row(doc)[j]
  }

  lemma RowLineSingle(doc: Registration)
    requires SingleLine(doc)
    ensures '\n' !in RowLine(doc)
  {
    var cells := Row(doc);
    var quoted := QuoteAll(cells);
    forall j | 0 <= j < |quoted| ensures '\n' !in quoted[j] {
      if j != RemarksColumn {
        QuoteAvoids(cells[j], '\n');
      } else {
        assert forall i :: 0 <= i < |cells[j]| ==> cells[j][i] != '\n';
        QuoteAvoids(cells[j], '\n');
      }
    }
    JoinAvoids(quoted, ',', '\n');
  }

  lemma HeaderLineSingle()
    ensures '\n' !in HeaderLine()
  {
    forall j | 0 <= j < |Headers| ensures '\n' !in Headers[j] {
      assert forall k :: 0 <= k < |Headers[j]| ==> Headers[j][k] != '\n';
    }
    JoinAvoids(Headers, ',', '\n');
  }

  /** When no cell but the remarks holds a line feed (the remarks never do
      after collapsing), the text splits into the header line followed by
      exactly one line per document. */
  lemma {:induction false} LineCount(docs: seq<Registration>)
    requires forall i :: 0 <= i < |docs| ==> SingleLine(docs[i])
    ensures Split(Content(docs), '\n') == [HeaderLine()] + RowLines(docs)
    ensures |Split(Content(docs), '\n')| == |docs| + 1
  {
    var header := HeaderLine();
    var rows := RowLines(docs);
    HeaderLineSingle();
    forall i | 0 <= i < |rows| ensures '\n' !in rows[i] {
      RowLineSingle(docs[i]);
    }
    SplitJoinFront(header, rows, '\n');
  }

  lemma SplitJoinFront(first: string, rest: seq<string>, sep: char)
    requires sep !in first
    requires forall i :: 0 <= i < |rest| ==> sep !in rest[i]
    ensures Split(Join([first] + rest, sep), sep) == [first] + rest
  {
    SplitJoin([first] + rest, sep);
  }

  /** A document that reads back from its own line. */
  predicate Readable(doc: Registration) {
    SingleLine(doc) && forall j :: 0 <= j < ColumnCount ==> ',' !in Row(doc)[j]
  }

  /** An admin's export of at most `FetchLimit` readable documents reads back,
      below the header line, into exactly the documents' rows in order. */
  lemma ExportRoundTrip(caller: Users.Caller, docs: seq<Registration>)
    requires Users.IsAdmin(caller)
    requires |docs| <= FetchLimit
    requires forall i :: 0 <= i < |docs| ==> Readable(docs[i])
    ensures var r := Export(caller, Some(docs));
      && r.CsvFile?
      && var lines := Split(r.body[1..], '\n');
      && |lines| == |docs| + 1
      && lines[0] == HeaderLine()
      && forall i :: 0 <= i < |docs| ==> ParseLine(lines[i + 1]) == Row(docs[i])
  {
    LineCount(docs);
    forall i | 0 <= i < |docs| ensures ParseLine(RowLine(docs[i])) == Row(docs[i]) {
      RowRoundTrip(docs[i]);
    }
  }

  /** Because embedded quotes are not escaped, two different registrations
      can produce the same line, so the text cannot always be read back. */
  lemma QuotesAreAmbiguous(doc: Registration)
    ensures var a := doc.(contactAddress := Str("a\",\"b"), ticketType := Str("c"));
            var b := doc.(contactAddress := Str("a"), ticketType := Str("b\",\"c"));
            a != b && RowLine(a) == RowLine(b)
  {
    var a := doc.(contactAddress := Str("a\",\"b"), ticketType := Str("c"));
    var b := doc.(contactAddress := Str("a"), ticketType := Str("b\",\"c"));
    assert a.contactAddress != b.contactAddress;
    SameOtherCells(a, b);
    assert Row(a)[3] == "a\",\"b" && Row(a)[4] == "c";
    assert Row(b)[3] == "a" && Row(b)[4] == "b\",\"c";
    QuotedCellsAmbiguous(Row(a), Row(b), 3);
  }

  /** Registrations that differ only in address and ticket type agree on every other cell. */
  lemma SameOtherCells(a: Registration, b: Registration)
    requires a.(contactAddress := b.contactAddress, ticketType := b.ticketType) == b
    ensures forall j :: 0 <= j < ColumnCount && j != 3 && j != 4 ==> Row(a)[j] == Row(b)[j]
  {
  }

  /** Moving a `","` from the end of one cell to the start of the next leaves the line unchanged. */
  lemma QuotedCellsAmbiguous(p: seq<string>, q: seq<string>, k: nat)
    requires |p| == |q| && k + 1 < |p|
    requires forall j :: 0 <= j < |p| && j != k && j != k + 1 ==> p[j] == q[j]
    requires p[k] == "a\",\"b" && p[k + 1] == "c" && q[k] == "a" && q[k + 1] == "b\",\"c"
    ensures Join(QuoteAll(p), ',') == Join(QuoteAll(q), ',')
  {
    var qa := QuoteAll(p);
    var qb := QuoteAll(q);
    assert qa[..k] == qb[..k];
    assert qa[k + 2..] == qb[k + 2..];
    assert qa[k] + [','] + qa[k + 1] == qb[k] + [','] + qb[k + 1];
    JoinSplice(qa, qb, k);
  }

  /** Two part lists that agree except at positions `k` and `k + 1`, where the
      two parts joined by the separator agree, have the same join. */
  lemma {:induction false} JoinSplice(p: seq<string>, q: seq<string>, k: nat)
    requires |p| == |q| && k + 1 < |p|
    requires p[..k] == q[..k] && p[k + 2..] == q[k + 2..]
    requires p[k] + [','] + p[k + 1] == q[k] + [','] + q[k + 1]
    ensures Join(p, ',') == Join(q, ',')
    decreases k
  {
    if k == 0 {
      if |p| > 2 {
        assert p[1..][1..] == p[2..];
        assert q[1..][1..] == q[2..];
        assert Join(p, ',') == p[0] + [','] + p[1] + [','] + Join(p[2..], ',');
        assert Join(q, ',') == q[0] + [','] + q[1] + [','] + Join(q[2..], ',');
      }
    } else {
      assert p[0] == q[0] by { assert p[..k][0] == q[..k][0]; }
      assert p[1..][..k - 1] == q[1..][..k - 1];
      assert p[1..][k + 1..] == q[1..][k + 1..];
      JoinSplice(p[1..], q[1..], k - 1);
    }
  }
}
