/** `csvUpload`: turns the records a CSV parser produced into stops. Each
    record's columns are recognised by name, role columns are read as
    yes/no tokens, records without an address are dropped, and the first
    and last survivors take the start and end roles when no record claims
    them. */
module FileProcessor {
  import opened Wrappers
  import opened Text
  import opened Schema

  /** A parsed CSV record: its `(column name, value)` entries in the order
      `Object.entries` lists them. */
  type CsvRecord = seq<(string, string)>

  /** A record after column recognition; a field is absent when no column
      of the record maps to it. */
  datatype Normalized = Normalized(
    address: Option<string>,
    note: Option<string>,
    isStartPoint: Option<bool>,
    isEndPoint: Option<bool>)

  const Blank := Normalized(None, None, None, None)

  datatype Column = AddressColumn | NoteColumn | StartColumn | EndColumn | Ignored

  predicate MentionsAddress(k: string) {
    Contains(k, "address") || Contains(k, "地址") || Contains(k, "位置")
  }

  predicate MentionsNote(k: string) {
    Contains(k, "note") || Contains(k, "備註") || Contains(k, "說明")
  }

  predicate MentionsStart(k: string) {
    Contains(k, "start") || Contains(k, "起點")
  }

  predicate MentionsEnd(k: string) {
    Contains(k, "end") || Contains(k, "終點")
  }

  /** The field a column name maps to. The lower-cased name is tested for
      the address words, then the note words, then the start words, then
      the end words; the first group that matches wins, and a name matching
      none is ignored. */
  function ColumnOf(key: string): (c: Column)
    ensures c == AddressColumn <==> MentionsAddress(Lower(key))
    ensures c == NoteColumn <==> !MentionsAddress(Lower(key)) && MentionsNote(Lower(key))
    ensures c == StartColumn <==>
              !MentionsAddress(Lower(key)) && !MentionsNote(Lower(key)) && MentionsStart(Lower(key))
    ensures c == EndColumn <==>
              !MentionsAddress(Lower(key)) && !MentionsNote(Lower(key)) && !MentionsStart(Lower(key))
              && MentionsEnd(Lower(key))
  {
    var k := Lower(key);
    if MentionsAddress(k) then AddressColumn
    else if MentionsNote(k) then NoteColumn
    else if MentionsStart(k) then StartColumn
    else if MentionsEnd(k) then EndColumn
    else Ignored
  }

  const StartTokens: seq<string> := ["true", "yes", "1", "y", "start", "起點"]
  const EndTokens: seq<string> := ["true", "yes", "1", "y", "end", "終點"]

  /** Each entry's value with the field its column maps to. */
  function Tagged(entries: CsvRecord): (ts: seq<(Column, string)>)
    ensures |ts| == |entries|
    ensures forall k :: 0 <= k < |entries| ==> ts[k] == (ColumnOf(entries[k].0), entries[k].1)
  {
    if entries == [] then [] else [(ColumnOf(entries[0].0), entries[0].1)] + Tagged(entries[1..])
  }

  /** The value of the last entry tagged `c`. */
  function LastValue(ts: seq<(Column, string)>, c: Column): Option<string> {
    if ts == [] then None
    else if ts[|ts| - 1].0 == c then Some(ts[|ts| - 1].1)
    else LastValue(ts[..|ts| - 1], c)
  }

  /** `LastValue` is present exactly when some entry is tagged `c`, and is
      then the value of an entry tagged `c` that no later entry tagged `c`
      follows. */
  lemma {:induction false} LastValueIsLast(ts: seq<(Column, string)>, c: Column)
    ensures LastValue(ts, c).Some? <==> exists i :: 0 <= i < |ts| && ts[i].0 == c
    ensures LastValue(ts, c).Some? ==>
              exists i :: 0 <= i < |ts| && ts[i] == (c, LastValue(ts, c).value)
                          && forall j :: i < j < |ts| ==> ts[j].0 != c
  {
    if ts != [] {
      var n := |ts| - 1;
      var init := ts[..n];
      if ts[n].0 == c {
        assert LastValue(ts, c) == Some(ts[n].1);
        assert ts[n] == (c, LastValue(ts, c).value);
      } else {
        assert LastValue(ts, c) == LastValue(init, c);
        LastValueIsLast(init, c);
        if LastValue(init, c).Some? {
          var i :| 0 <= i < n && init[i] == (c, LastValue(init, c).value)
                   && forall j :: i < j < n ==> init[j].0 != c;
          assert ts[i] == init[i];
        } else {
          forall i | 0 <= i < |ts| ensures ts[i].0 != c {
            if i < n {
              assert ts[i] == init[i];
            }
          }
        }
      }
    }
  }

  /** What a record normalises to: each field holds the value of the last
      column mapping to it; role values are true exactly for the tokens. */
  function Normalize(entries: CsvRecord): Normalized {
    var ts := Tagged(entries);
    var start := LastValue(ts, StartColumn);
    var end := LastValue(ts, EndColumn);
    Normalized(
      LastValue(ts, AddressColumn),
      LastValue(ts, NoteColumn),
      if start.Some? then Some(Lower(start.value) in StartTokens) else None,
      if end.Some? then Some(Lower(end.value) in EndTokens) else None)
  }

  lemma TaggedSnoc(entries: CsvRecord, i: int)
    requires 0 <= i < |entries|
    ensures Tagged(entries[..i + 1]) == Tagged(entries[..i]) + [(ColumnOf(entries[i].0), entries[i].1)]
  {
    assert |Tagged(entries[..i + 1])| == i + 1;
  }

  /** The inner loop of the `records.map` callback: one field written per
      recognised column, later columns overwriting earlier ones. */
  method NormalizeRecord(entries: CsvRecord) returns (r: Normalized)
    ensures r == Normalize(entries)
  {
    r := Blank;
    for i := 0 to |entries|
      invariant r == Normalize(entries[..i])
    {
      var (key, value) := entries[i];
      var lowerKey := Lower(key);
      TaggedSnoc(entries, i);
      if Contains(lowerKey, "address") || Contains(lowerKey, "地址") || Contains(lowerKey, "位置") {
        r := r.(address := Some(value));
      } else if Contains(lowerKey, "note") || Contains(lowerKey, "備註") || Contains(lowerKey, "說明") {
        r := r.(note := Some(value));
      } else if Contains(lowerKey, "start") || Contains(lowerKey, "起點") {
        r := r.(isStartPoint := Some(Lower(value) in StartTokens));
      } else if Contains(lowerKey, "end") || Contains(lowerKey, "終點") {
        r := r.(isEndPoint := Some(Lower(value) in EndTokens));
      }
    }
    assert entries[..|entries|] == entries;
  }

  /** `record.address && record.address.trim().length > 0`. */
  predicate HasAddress(r: Normalized) {
    r.address.Some? && !IsBlank(r.address.value)
  }

  /** The records that have an address, in their original order. */
  function Survivors(rs: seq<Normalized>): (out: seq<Normalized>)
    ensures |out| <= |rs|
    ensures forall k :: 0 <= k < |out| ==> HasAddress(out[k])
    ensures forall r :: r in out <==> r in rs && HasAddress(r)
  {
    if rs == [] then [] else (if HasAddress(rs[0]) then [rs[0]] else []) + Survivors(rs[1..])
  }

  /** Nothing survives when no record has an address. */
  lemma {:induction false} SurvivorsNone(rs: seq<Normalized>)
    requires forall k :: 0 <= k < |rs| ==> !HasAddress(rs[k])
    ensures Survivors(rs) == []
  {
    if rs != [] {
      SurvivorsNone(rs[1..]);
    }
  }

  /** Filtering splits over concatenation, so survivors keep their
      relative order. */
  lemma {:induction false} SurvivorsAppend(xs: seq<Normalized>, ys: seq<Normalized>)
    ensures Survivors(xs + ys) == Survivors(xs) + Survivors(ys)
  {
    if xs != [] {
      assert (xs + ys)[1..] == xs[1..] + ys;
      SurvivorsAppend(xs[1..], ys);
    } else {
      assert xs + ys == ys;
    }
  }

  predicate AnyStart(rs: seq<Normalized>) {
    exists k :: 0 <= k < |rs| && rs[k].isStartPoint == Some(true)
  }

  predicate AnyEnd(rs: seq<Normalized>) {
    exists k :: 0 <= k < |rs| && rs[k].isEndPoint == Some(true)
  }

  /** The role defaults applied to the survivors: the first becomes start
      when none is flagged start; the last becomes end when none is
      flagged end and there are at least two. */
  function DefaultRoles(valid: seq<Normalized>): seq<Normalized> {
    var s := if !AnyStart(valid) && |valid| > 0 then valid[0 := valid[0].(isStartPoint := Some(true))] else valid;
    if !AnyEnd(s) && |s| > 1 then s[|s| - 1 := s[|s| - 1].(isEndPoint := Some(true))] else s
  }

  /** The result of `csvUpload(records)`. */
  function CsvUploadResult(records: seq<CsvRecord>): seq<Normalized> {
    DefaultRoles(Survivors(NormalizeAll(records)))
  }

  function NormalizeAll(records: seq<CsvRecord>): (rs: seq<Normalized>)
    ensures |rs| == |records|
    ensures forall k :: 0 <= k < |records| ==> rs[k] == Normalize(records[k])
  {
    if records == [] then [] else [Normalize(records[0])] + NormalizeAll(records[1..])
  }

  lemma NormalizeAllSnoc(records: seq<CsvRecord>, i: int)
    requires 0 <= i < |records|
    ensures NormalizeAll(records[..i + 1]) == NormalizeAll(records[..i]) + [Normalize(records[i])]
  {
    assert |NormalizeAll(records[..i + 1])| == i + 1;
  }

  /** The `records.map` of `csvUpload`: one normalised record per record. */
  method NormalizeRecords(records: seq<CsvRecord>) returns (normalizedRecords: seq<Normalized>)
    ensures normalizedRecords == NormalizeAll(records)
  {
    normalizedRecords := [];
    for i := 0 to |records|
      invariant normalizedRecords == NormalizeAll(records[..i])
    {
      var r := NormalizeRecord(records[i]);
      NormalizeAllSnoc(records, i);
      normalizedRecords := normalizedRecords + [r];
    }
    assert records[..|records|] == records;
  }

  /** The defaulting step of `csvUpload`, which updates the first and the
      last survivor in place. */
  method SetDefaultRoles(valid: seq<Normalized>) returns (validRecords: seq<Normalized>)
    ensures validRecords == DefaultRoles(valid)
  {
    validRecords := valid;
    if !AnyStart(validRecords) {
      if |validRecords| > 0 {
        validRecords := validRecords[0 := validRecords[0].(isStartPoint := Some(true))];
      }
    }
    if !AnyEnd(validRecords) {
      if |validRecords| > 1 {
        validRecords := validRecords[|validRecords| - 1 := validRecords[|validRecords| - 1].(isEndPoint := Some(true))];
      }
    }
  }

  /** `csvUpload(records)`: normalise every record, keep those with an
      address, then set the default roles. */
  method CsvUpload(records: seq<CsvRecord>) returns (validRecords: seq<Normalized>)
    ensures validRecords == CsvUploadResult(records)
  {
    var normalizedRecords := NormalizeRecords(records);
    validRecords := Survivors(normalizedRecords);
    validRecords := SetDefaultRoles(validRecords);
  }

  /** What the defaults do and do not do: the list keeps its length and
      every address and note; a start flag is only ever added, at the
      first record and only when no record had one; an end flag is only
      ever added, at the last record, only when no record had one and
      there are at least two; explicit flags (even duplicated ones) are
      kept as they are. */
  lemma DefaultRolesSpec(valid: seq<Normalized>)
    ensures var out := DefaultRoles(valid);
      && |out| == |valid|
      && (forall k :: 0 <= k < |valid| ==> out[k].address == valid[k].address && out[k].note == valid[k].note)
      && (forall k :: 0 <= k < |valid| && valid[k].isStartPoint == Some(true) ==> out[k].isStartPoint == Some(true))
      && (forall k :: 0 <= k < |valid| && valid[k].isEndPoint == Some(true) ==> out[k].isEndPoint == Some(true))
      && (forall k :: 0 <= k < |valid| && out[k].isStartPoint != valid[k].isStartPoint ==>
            k == 0 && !AnyStart(valid) && out[k].isStartPoint == Some(true))
      && (forall k :: 0 <= k < |valid| && out[k].isEndPoint != valid[k].isEndPoint ==>
            k == |valid| - 1 && |valid| >= 2 && !AnyEnd(valid) && out[k].isEndPoint == Some(true))
      && (|valid| > 0 && !AnyStart(valid) ==> out[0].isStartPoint == Some(true))
      && (|valid| >= 2 && !AnyEnd(valid) ==> out[|out| - 1].isEndPoint == Some(true))
  {
    var s := if !AnyStart(valid) && |valid| > 0 then valid[0 := valid[0].(isStartPoint := Some(true))] else valid;
    assert AnyEnd(s) <==> AnyEnd(valid) by {
      if AnyEnd(valid) {
        var k :| 0 <= k < |valid| && valid[k].isEndPoint == Some(true);
        assert s[k].isEndPoint == Some(true);
      }
      if AnyEnd(s) {
        var k :| 0 <= k < |s| && s[k].isEndPoint == Some(true);
        assert valid[k].isEndPoint == Some(true);
      }
    }
  }

  /** After the defaults there is a start whenever there is a record, and
      an end whenever there are at least two. */
  lemma DefaultRolesCover(valid: seq<Normalized>)
    ensures |valid| > 0 ==> AnyStart(DefaultRoles(valid))
    ensures |valid| >= 2 ==> AnyEnd(DefaultRoles(valid))
    ensures |valid| == 1 && !AnyEnd(valid) ==> !AnyEnd(DefaultRoles(valid))
  {
    DefaultRolesSpec(valid);
    var out := DefaultRoles(valid);
    if |valid| > 0 {
      if AnyStart(valid) {
        var k :| 0 <= k < |valid| && valid[k].isStartPoint == Some(true);
        assert out[k].isStartPoint == Some(true);
      } else {
        assert out[0].isStartPoint == Some(true);
      }
    }
    if |valid| >= 2 {
      if AnyEnd(valid) {
        var k :| 0 <= k < |valid| && valid[k].isEndPoint == Some(true);
        assert out[k].isEndPoint == Some(true);
      } else {
        assert out[|out| - 1].isEndPoint == Some(true);
      }
    }
    if |valid| == 1 && !AnyEnd(valid) {
      assert out[0].isEndPoint == valid[0].isEndPoint;
    }
  }

  /** The rows `csvUpload` returns, as the upload schema sees them. */
  function AsCsvAddresses(rs: seq<Normalized>): (rows: seq<CsvAddress>)
    ensures |rows| == |rs|
    ensures forall k :: 0 <= k < |rs| ==>
              rows[k] == CsvAddress(rs[k].address.GetOr(""), rs[k].note, rs[k].isStartPoint, rs[k].isEndPoint)
  {
    if rs == [] then []
    else [CsvAddress(rs[0].address.GetOr(""), rs[0].note, rs[0].isStartPoint, rs[0].isEndPoint)] + AsCsvAddresses(rs[1..])
  }

  /** Every row `csvUpload` returns has a non-blank address, so the result
      meets the upload schema; when no record has an address the result is
      empty (and no error is raised). */
  lemma CsvUploadMeetsSchema(records: seq<CsvRecord>)
    ensures forall k :: 0 <= k < |CsvUploadResult(records)| ==> HasAddress(CsvUploadResult(records)[k])
    ensures ValidCsvUpload(AsCsvAddresses(CsvUploadResult(records)))
    ensures (forall k :: 0 <= k < |records| ==> !HasAddress(Normalize(records[k]))) ==> CsvUploadResult(records) == []
  {
    var valid := Survivors(NormalizeAll(records));
    DefaultRolesSpec(valid);
    var out := CsvUploadResult(records);
    forall k | 0 <= k < |out| ensures HasAddress(out[k]) && |AsCsvAddresses(out)[k].address| >= 1 {
      assert out[k].address == valid[k].address;
    }
    if forall k :: 0 <= k < |records| ==> !HasAddress(Normalize(records[k])) {
      SurvivorsNone(NormalizeAll(records));
    }
  }
}
