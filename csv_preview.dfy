/** The client's CSV upload form: the preview parser that runs when a file
    has been read (split into lines, check the header line for an address
    column, turn up to five non-blank lines into rows keyed by header), the
    row labels of the preview table, and the submit guard. */
module CsvPreview {
  import opened Wrappers
  import opened Text

  const EmptyFileError := "CSV檔案似乎是空的或格式不正確"
  const NoAddressColumnError := "CSV檔案必須包含地址欄位（address或地址）"
  const NoRowsError := "無法解析CSV資料，請確認格式是否正確"
  const ReadError := "讀取CSV檔案時發生錯誤"
  const NoFileToast := "請先選擇CSV檔案"
  const MaxPreviewRows := 5

  /** A preview row (`rowData`): header and cell pairs, keys in insertion
      order. */
  type Row = seq<(string, string)>

  function Keys(row: Row): (ks: seq<string>)
    ensures |ks| == |row|
    ensures forall k :: 0 <= k < |row| ==> ks[k] == row[k].0
  {
    if row == [] then [] else [row[0].0] + Keys(row[1..])
  }

  /** `rowData[key]`. */
  function Lookup(row: Row, key: string): Option<string> {
    if row == [] then None else if row[0].0 == key then Some(row[0].1) else Lookup(row[1..], key)
  }

  predicate Distinct(ks: seq<string>) {
    forall i, j :: 0 <= i < j < |ks| ==> ks[i] != ks[j]
  }

  /** `rowData[key] = value`: a present key keeps its place and takes the
      new value, a new key goes last. */
  function SetField(row: Row, key: string, value: string): Row {
    if row == [] then [(key, value)]
    else if row[0].0 == key then [(key, value)] + row[1..]
    else [row[0]] + SetField(row[1..], key, value)
  }

  lemma {:induction false} SetFieldFacts(row: Row, key: string, value: string)
    requires Distinct(Keys(row))
    ensures Keys(SetField(row, key, value)) == if key in Keys(row) then Keys(row) else Keys(row) + [key]
    ensures Distinct(Keys(SetField(row, key, value)))
    ensures Lookup(SetField(row, key, value), key) == Some(value)
    ensures forall k :: k != key ==> Lookup(SetField(row, key, value), k) == Lookup(row, k)
  {
    if row != [] && row[0].0 != key {
      assert Keys(row) == [row[0].0] + Keys(row[1..]);
      SetFieldFacts(row[1..], key, value);
      var r := SetField(row, key, value);
      assert Keys(r) == [row[0].0] + Keys(SetField(row[1..], key, value));
    } else if row != [] {
      assert Keys(SetField(row, key, value)) == [key] + Keys(row[1..]);
    }
  }

  /** `cells[index] || ''`. */
  function Cell(cells: seq<string>, index: nat): string {
    OrElse(if index < |cells| then Some(cells[index]) else None, "")
  }

  /** `.map(h => h.trim())`. */
  function TrimAll(ss: seq<string>): (ts: seq<string>)
    ensures |ts| == |ss|
  {
    if ss == [] then [] else [Trim(ss[0])] + TrimAll(ss[1..])
  }

  lemma {:induction false} TrimAllEach(ss: seq<string>)
    ensures forall k :: 0 <= k < |ss| ==> TrimAll(ss)[k] == Trim(ss[k])
  {
    if ss != [] {
      TrimAllEach(ss[1..]);
    }
  }

  /** The row after the first `n` headers have been assigned. */
  function RowFrom(headers: seq<string>, cells: seq<string>, n: nat): Row
    requires n <= |headers|
  {
    if n == 0 then [] else SetField(RowFrom(headers, cells, n - 1), headers[n - 1], Cell(cells, n - 1))
  }

  /** Where a header last occurs among the first `n`. */
  function LastIndex(headers: seq<string>, h: string, n: nat): (k: nat)
    requires n <= |headers| && h in headers[..n]
    ensures k < n && headers[k] == h
    ensures forall j :: k < j < n ==> headers[j] != h
  {
    if headers[n - 1] == h then n - 1
    else
      assert headers[..n] == headers[..n - 1] + [headers[n - 1]];
      LastIndex(headers, h, n - 1)
  }

  /** A row has one key per distinct header, and under each header the
      cell of the last column of that name (`''` when the line is short). */
  lemma RowFromFacts(headers: seq<string>, cells: seq<string>, n: nat)
    requires n <= |headers|
    ensures Distinct(Keys(RowFrom(headers, cells, n)))
    ensures forall h :: h in Keys(RowFrom(headers, cells, n)) <==> h in headers[..n]
    ensures forall h :: h in headers[..n] ==>
              Lookup(RowFrom(headers, cells, n), h) == Some(Cell(cells, LastIndex(headers, h, n)))
    ensures forall h :: h !in headers[..n] ==> Lookup(RowFrom(headers, cells, n), h) == None
  {
    RowFromKeys(headers, cells, n);
    forall h ensures Lookup(RowFrom(headers, cells, n), h)
                     == if h in headers[..n] then Some(Cell(cells, LastIndex(headers, h, n))) else None
    {
      RowFromLookup(headers, cells, n, h);
    }
  }

  lemma {:induction false} RowFromKeys(headers: seq<string>, cells: seq<string>, n: nat)
    requires n <= |headers|
    ensures Distinct(Keys(RowFrom(headers, cells, n)))
    ensures forall h :: h in Keys(RowFrom(headers, cells, n)) <==> h in headers[..n]
  {
    if n > 0 {
      RowFromKeys(headers, cells, n - 1);
      SetFieldFacts(RowFrom(headers, cells, n - 1), headers[n - 1], Cell(cells, n - 1));
      assert headers[..n] == headers[..n - 1] + [headers[n - 1]];
    }
  }

  lemma {:induction false} RowFromLookup(headers: seq<string>, cells: seq<string>, n: nat, h: string)
    requires n <= |headers|
    ensures Lookup(RowFrom(headers, cells, n), h)
            == if h in headers[..n] then Some(Cell(cells, LastIndex(headers, h, n))) else None
  {
    if n > 0 {
      var prev, last := RowFrom(headers, cells, n - 1), headers[n - 1];
      RowFromKeys(headers, cells, n - 1);
      SetFieldFacts(prev, last, Cell(cells, n - 1));
      assert headers[..n] == headers[..n - 1] + [last];
      if h == last {
        assert h in headers[..n] && LastIndex(headers, h, n) == n - 1;
      } else {
        RowFromLookup(headers, cells, n - 1, h);
        assert h in headers[..n] <==> h in headers[..n - 1];
        if h in headers[..n - 1] {
          assert LastIndex(headers, h, n) == LastIndex(headers, h, n - 1);
        }
      }
    }
  }

  /** `h.toLowerCase().includes('address') || ....includes('地址')`. */
  predicate IsAddressHeader(h: string) {
    Contains(Lower(h), "address") || Contains(Lower(h), "地址")
  }

  predicate HasAddressHeader(headers: seq<string>) {
    exists i :: 0 <= i < |headers| && IsAddressHeader(headers[i])
  }

  function RowOf(headers: seq<string>, line: string): Row {
    RowFrom(headers, TrimAll(Split(line, ',')), |headers|)
  }

  /** The non-blank lines among lines 1 .. last, in order (a line is
      blank when its trim is empty). */
  function NonBlankLines(rows: seq<string>, last: nat): (lines: seq<string>)
    requires last < |rows|
    ensures |lines| <= last
  {
    if last == 0 then []
    else NonBlankLines(rows, last - 1) + (if !IsBlank(rows[last]) then [rows[last]] else [])
  }

  /** The row of each line under the given headers. */
  function RowMaker(headers: seq<string>): string -> Row {
    line => RowOf(headers, line)
  }

  /** The preview rows of some lines: one per line. */
  function RowsOf(headers: seq<string>, lines: seq<string>): (rs: seq<Row>)
    ensures |rs| == |lines|
  {
    if lines == [] then [] else RowsOf(headers, lines[..|lines| - 1]) + [RowMaker(headers)(lines[|lines| - 1])]
  }

  lemma {:induction false} RowsOfAt(headers: seq<string>, lines: seq<string>, k: nat)
    requires k < |lines|
    ensures RowsOf(headers, lines)[k] == RowOf(headers, lines[k])
  {
    if k < |lines| - 1 {
      RowsOfAt(headers, lines[..|lines| - 1], k);
    }
  }

  /** What reading a file shows: the preview rows, or the error message. */
  function Preview(content: string): Result<seq<Row>, string> {
    PreviewOfLines(Split(content, '\n'))
  }

  function PreviewOfLines(rows: seq<string>): Result<seq<Row>, string> {
    if |rows| <= 1 then Err(EmptyFileError)
    else
      var headers := TrimAll(Split(rows[0], ','));
      if !HasAddressHeader(headers) then Err(NoAddressColumnError)
      else
        var preview := RowsOf(headers, NonBlankLines(rows, if |rows| - 1 < MaxPreviewRows then |rows| - 1 else MaxPreviewRows));
        if preview == [] then Err(NoRowsError) else Ok(preview)
  }

  /** Every non-blank line among lines 1 .. last is kept. */
  lemma {:induction false} NonBlankLinesComplete(rows: seq<string>, last: nat, i: nat)
    requires last < |rows| && 1 <= i <= last && !IsBlank(rows[i])
    ensures rows[i] in NonBlankLines(rows, last)
  {
    if i < last {
      NonBlankLinesComplete(rows, last - 1, i);
    }
  }

  /** Every kept line is a non-blank line among lines 1 .. last. */
  lemma {:induction false} NonBlankLinesSound(rows: seq<string>, last: nat, line: string)
    requires last < |rows| && line in NonBlankLines(rows, last)
    ensures exists i :: 1 <= i <= last && !IsBlank(rows[i]) && line == rows[i]
  {
    if line in NonBlankLines(rows, last - 1) {
      NonBlankLinesSound(rows, last - 1, line);
    }
  }

  /** No line is kept exactly when lines 1 .. last are all blank. */
  lemma {:induction false} NonBlankLinesEmpty(rows: seq<string>, last: nat)
    requires last < |rows|
    ensures (forall i :: 1 <= i <= last ==> IsBlank(rows[i])) <==> NonBlankLines(rows, last) == []
  {
    if last > 0 {
      NonBlankLinesEmpty(rows, last - 1);
    }
  }

  /** The preview holds the row of every non-blank line among the lines
      examined, and only those. */
  lemma PreviewRowsSelect(headers: seq<string>, rows: seq<string>, last: nat)
    requires last < |rows|
    ensures forall i :: 1 <= i <= last && !IsBlank(rows[i]) ==> RowOf(headers, rows[i]) in RowsOf(headers, NonBlankLines(rows, last))
    ensures forall r :: r in RowsOf(headers, NonBlankLines(rows, last)) ==>
              exists i :: 1 <= i <= last && !IsBlank(rows[i]) && r == RowOf(headers, rows[i])
    ensures RowsOf(headers, NonBlankLines(rows, last)) == [] <==> forall i :: 1 <= i <= last ==> IsBlank(rows[i])
  {
    var lines := NonBlankLines(rows, last);
    var rs := RowsOf(headers, NonBlankLines(rows, last));
    forall i | 1 <= i <= last && !IsBlank(rows[i]) ensures RowOf(headers, rows[i]) in rs {
      NonBlankLinesComplete(rows, last, i);
      var k :| 0 <= k < |lines| && lines[k] == rows[i];
      RowsOfAt(headers, lines, k);
    }
    forall r | r in rs ensures exists i :: 1 <= i <= last && !IsBlank(rows[i]) && r == RowOf(headers, rows[i]) {
      var k :| 0 <= k < |rs| && rs[k] == r;
      RowsOfAt(headers, lines, k);
      NonBlankLinesSound(rows, last, lines[k]);
    }
    NonBlankLinesEmpty(rows, last);
  }

  /** The three error outcomes and when each happens; a preview has one to
      five rows. */
  lemma PreviewOutcomes(content: string)
    ensures var rows := Split(content, '\n');
            (Preview(content) == Err(EmptyFileError) <==> |rows| <= 1)
            && (Preview(content) == Err(NoAddressColumnError) <==>
                  |rows| > 1 && !HasAddressHeader(TrimAll(Split(rows[0], ','))))
            && (Preview(content).Ok? ==> 1 <= |Preview(content).value| <= MaxPreviewRows)
  {
  }

  /** Every preview row is keyed by exactly the distinct headers. */
  lemma PreviewRowKeys(content: string, r: Row)
    requires Preview(content).Ok? && r in Preview(content).value
    ensures var headers := TrimAll(Split(Split(content, '\n')[0], ','));
            Distinct(Keys(r)) && forall h :: h in Keys(r) <==> h in headers
  {
    var rows := Split(content, '\n');
    var headers := TrimAll(Split(rows[0], ','));
    var last := if |rows| - 1 < MaxPreviewRows then |rows| - 1 else MaxPreviewRows;
    assert r in RowsOf(headers, NonBlankLines(rows, last));
    PreviewRowsSelect(headers, rows, last);
    var i :| 1 <= i <= last && !IsBlank(rows[i]) && r == RowOf(headers, rows[i]);
    RowOfKeys(headers, rows[i]);
  }

  lemma RowOfKeys(headers: seq<string>, line: string)
    ensures Distinct(Keys(RowOf(headers, line)))
    ensures forall h :: h in Keys(RowOf(headers, line)) <==> h in headers
  {
    RowFromFacts(headers, TrimAll(Split(line, ',')), |headers|);
    assert headers[..|headers|] == headers;
  }

  /** The `forEach` that fills `rowData`. */
  method BuildRow(headers: seq<string>, cells: seq<string>) returns (rowData: Row)
    ensures rowData == RowFrom(headers, cells, |headers|)
  {
    rowData := [];
    for index := 0 to |headers|
      invariant rowData == RowFrom(headers, cells, index)
    {
      rowData := SetField(rowData, headers[index], Cell(cells, index));
    }
  }

  /** Examining line `i` adds its row when it is not blank. */
  lemma RowsOfStep(headers: seq<string>, rows: seq<string>, i: nat)
    requires 1 <= i < |rows|
    ensures RowsOf(headers, NonBlankLines(rows, i)) ==
              RowsOf(headers, NonBlankLines(rows, i - 1))
              + (if !IsBlank(rows[i]) then [RowOf(headers, rows[i])] else [])
  {
    var before := NonBlankLines(rows, i - 1);
    if !IsBlank(rows[i]) {
      var lines := before + [rows[i]];
      assert NonBlankLines(rows, i) == lines;
      assert lines[..|lines| - 1] == before;
      assert RowsOf(headers, lines) == RowsOf(headers, before) + [RowOf(headers, rows[i])];
    } else {
      assert NonBlankLines(rows, i) == before + [];
      assert before + [] == before;
    }
  }

  /** One examined line: when it is not blank, its cells split on `,` and
      trimmed and keyed by header make one more preview row. */
  method ExamineLine(headers: seq<string>, rows: seq<string>, i: nat, preview: seq<Row>)
    returns (next: seq<Row>)
    requires 1 <= i < |rows| && preview == RowsOf(headers, NonBlankLines(rows, i - 1))
    ensures next == RowsOf(headers, NonBlankLines(rows, i))
  {
    RowsOfStep(headers, rows, i);
    next := preview;
    if Trim(rows[i]) != "" {
      var cells := TrimAll(Split(rows[i], ','));
      var rowData := BuildRow(headers, cells);
      next := preview + [rowData];
    }
  }

  /** The loop over lines 1 .. maxPreviewRows. */
  method CollectRows(headers: seq<string>, rows: seq<string>, maxPreviewRows: nat) returns (preview: seq<Row>)
    requires maxPreviewRows < |rows|
    ensures preview == RowsOf(headers, NonBlankLines(rows, maxPreviewRows))
  {
    preview := [];
    assert NonBlankLines(rows, 0) == [];
    for i := 1 to maxPreviewRows + 1
      invariant preview == RowsOf(headers, NonBlankLines(rows, i - 1))
    {
      preview := ExamineLine(headers, rows, i, preview);
    }
  }

  /** The body of `reader.onload` on the text read. */
  method ParsePreview(content: string) returns (r: Result<seq<Row>, string>)
    ensures r == Preview(content)
  {
    var rows := Split(content, '\n');
    r := PreviewLines(rows);
  }

  /** The body of `reader.onload` once the text is split into lines. */
  method PreviewLines(rows: seq<string>) returns (r: Result<seq<Row>, string>)
    ensures r == PreviewOfLines(rows)
  {
    if |rows| <= 1 {
      return Err(EmptyFileError);
    }
    var headers := TrimAll(Split(rows[0], ','));
    if !HasAddressHeader(headers) {
      return Err(NoAddressColumnError);
    }
    var maxPreviewRows := if |rows| - 1 < MaxPreviewRows then |rows| - 1 else MaxPreviewRows;
    var preview := CollectRows(headers, rows, maxPreviewRows);
    if |preview| == 0 {
      return Err(NoRowsError);
    }
    return Ok(preview);
  }

  /** The label of preview row `rowIndex` of `count`. */
  function RowLabel(rowIndex: nat, count: nat): string {
    if rowIndex == 0 then "1 (起點)"
    else if rowIndex == count - 1 then NatToString(rowIndex + 1) + " (終點)"
    else NatToString(rowIndex + 1)
  }

  /** A label is the 1-based row number, marked as start on the first row
      and as end on the last of several. */
  lemma RowLabelShape(rowIndex: nat, count: nat)
    requires rowIndex < count
    ensures RowLabel(rowIndex, count) ==
              NatToString(rowIndex + 1)
              + (if rowIndex == 0 then " (起點)" else if rowIndex == count - 1 then " (終點)" else "")
  {
    if rowIndex == 0 {
      assert NatToString(1) == "1";
    }
  }

  /** Different rows get different labels. */
  lemma RowLabelInjective(i: nat, j: nat, count: nat)
    requires i < count && j < count && i != j
    ensures RowLabel(i, count) != RowLabel(j, count)
  {
    RowLabelShape(i, count);
    RowLabelShape(j, count);
    var di, dj := NatToString(i + 1), NatToString(j + 1);
    var si := if i == 0 then " (起點)" else if i == count - 1 then " (終點)" else "";
    var sj := if j == 0 then " (起點)" else if j == count - 1 then " (終點)" else "";
    if di + si == dj + sj {
      DigitsThenSpace(di, si);
      DigitsThenSpace(dj, sj);
      assert di == (di + si)[..|di|] == (dj + sj)[..|dj|] == dj;
      NatToStringInjective(i + 1, j + 1);
    }
  }

  /** The length of the run of digits a string starts with. */
  function LeadingDigits(w: string): (n: nat)
    ensures n <= |w|
  {
    if w != [] && IsDigit(w[0]) then 1 + LeadingDigits(w[1..]) else 0
  }

  /** Digits followed by text that is empty or starts with a space: the
      digits are exactly the leading run of digits. */
  lemma {:induction false} DigitsThenSpace(d: string, s: string)
    requires AllDigits(d)
    requires s == "" || s[0] == ' '
    ensures LeadingDigits(d + s) == |d|
  {
    if d == [] {
      assert d + s == s;
    } else {
      assert (d + s)[1..] == d[1..] + s;
      DigitsThenSpace(d[1..], s);
    }
  }

  /** A file handle held by the form. */
  datatype SelectedFile = SelectedFile(name: string)

  /** The form's state: the chosen file, the preview, the error shown, and
      the toasts raised and uploads requested so far. */
  class CsvUploadForm {
    var file: Option<SelectedFile>
    var previewData: Option<seq<Row>>
    var error: Option<string>
    var toasts: seq<string>
    var uploads: seq<SelectedFile>

    constructor()
      ensures file.None? && previewData.None? && error.None? && toasts == [] && uploads == []
    {
      file := None;
      previewData := None;
      error := None;
      toasts := [];
      uploads := [];
    }

    /** `handleFileSelect` followed by the reader's outcome: `content` is
        the text read, or none when reading failed. Either a preview or an
        error is shown, never both. */
    method HandleFileSelect(selectedFile: SelectedFile, content: Option<string>)
      modifies this
      ensures file == Some(selectedFile)
      ensures content.None? ==> error == Some(ReadError) && previewData.None?
      ensures content.Some? && Preview(content.value).Ok? ==>
                error.None? && previewData == Some(Preview(content.value).value)
      ensures content.Some? && Preview(content.value).Err? ==>
                error == Some(Preview(content.value).error) && previewData.None?
      ensures toasts == old(toasts) && uploads == old(uploads)
    {
      file := Some(selectedFile);
      error := None;
      if content.None? {
        error := Some(ReadError);
        previewData := None;
        return;
      }
      var outcome := ParsePreview(content.value);
      if outcome.Err? {
        error := Some(outcome.error);
        previewData := None;
        return;
      }
      previewData := Some(outcome.value);
    }

    /** `handleSubmit`: with no file, an error toast and no upload;
        otherwise the file is handed to `onUpload`. */
    method HandleSubmit()
      modifies this
      ensures file.None? ==> toasts == old(toasts) + [NoFileToast] && uploads == old(uploads)
      ensures file.Some? ==> uploads == old(uploads) + [file.value] && toasts == old(toasts)
      ensures file == old(file) && previewData == old(previewData) && error == old(error)
    {
      if file.None? {
        toasts := toasts + [NoFileToast];
        return;
      }
      uploads := uploads + [file.value];
    }
  }
}
