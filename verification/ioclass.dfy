/**
  Validation of an I/O classification file before it is deployed
  (`validate_ioclass_file`). The file is a CSV table with the four columns
  "IO class id", "IO class name", "Eviction priority" and "Allocation"; the whole
  file is rejected at the first violation, checked row by row in a fixed order.

  The file is given as the csv module tokenises it: a sequence of records, each a
  sequence of cells. `csv.DictReader` takes the first record as the header, skips
  blank records, gives a field of a short row the value `None`, and collects the
  cells of a long row beyond the header under an extra key. Each row is read once
  (`ReadRow`: the field lookup and the `int()`/`str()` conversions); the checks work
  on the values read.
 */
module IoClass {
  import opened Outcomes
  import opened Values

  const IdField := "IO class id"
  const NameField := "IO class name"
  const PriorityField := "Eviction priority"
  const AllocationField := "Allocation"
  const RequiredFields: set<string> := {IdField, NameField, PriorityField, AllocationField}

  /** Where the role keeps the classification files, relative to the playbook. */
  const FilesDir := "roles/opencas-deploy/files/"

  /** Ids are in [0, IdLimit). */
  const IdLimit := 33
  /** Names are shorter than NameLengthLimit. */
  const NameLengthLimit := 1024
  /** Priorities are in [0, MaxPriority]. */
  const MaxPriority := 255

  type Record = seq<string>

  /** One accepted classification rule. */
  datatype Rule = Rule(id: int, name: string, priority: int, allocation: int)

  /** The check that rejected the file. */
  datatype PolicyError =
    | FileNotFound        // no such file under FilesDir
    | NoHeader            // the file is empty, so the reader has no field names
    | InvalidFormat       // wrong header fields, or a row longer than the header
    | InvalidId           // the id is not an integer, or not in [0, 33)
    | DuplicateId         // the id was used by an earlier row
    | NameTooLong         // the name has 1024 characters or more
    | InvalidNameChar     // the name holds a comma, a double quote or a non-printable character
    | InvalidPriority     // the priority is not an integer
    | PriorityOutOfRange  // the priority is not in [0, 255]
    | InvalidAllocation   // the allocation is not an integer, or not 0 or 1

  /**
    A row as the checks see it: whether it has cells beyond the header, and its four
    fields as `int()` and `str()` read them (`None` where `int()` raises).
   */
  datatype Row = Row(ragged: bool, id: Option<int>, name: string, priority: Option<int>, allocation: Option<int>)

  /** The set of names in the header. */
  function FieldSet(header: Record): set<string> {
    set name | name in header
  }

  predicate HasRequired(header: Record) {
    IdField in header && NameField in header && PriorityField in header && AllocationField in header
  }

  /** A header with exactly the required names has each of them. */
  lemma RequiredFieldsPresent(header: Record)
    requires FieldSet(header) == RequiredFields
    ensures HasRequired(header)
  {
    assert IdField in FieldSet(header);
    assert NameField in FieldSet(header);
    assert PriorityField in FieldSet(header);
    assert AllocationField in FieldSet(header);
  }

  /** The records `csv.DictReader` yields as rows: all after the header that are not blank. */
  function NonBlank(records: seq<Record>): (rows: seq<Record>)
    ensures |rows| <= |records|
    ensures forall k :: 0 <= k < |rows| ==> rows[k] != []
  {
    if records == [] then []
    else (if records[0] == [] then [] else [records[0]]) + NonBlank(records[1..])
  }

  /** The rows are exactly the non-blank records. */
  lemma {:induction false} NonBlankMembers(records: seq<Record>)
    ensures forall r :: r in NonBlank(records) <==> r in records && r != []
    decreases |records|
  {
    if records != [] {
      NonBlankMembers(records[1..]);
      assert records == [records[0]] + records[1..];
    }
  }

  /** A single record is a row exactly when it is not blank. */
  lemma NonBlankOne(record: Record)
    ensures NonBlank([record]) == if record == [] then [] else [record]
  {
  }

  /**
    Skipping blank records keeps the others in order, repeats included: the rows of two
    stretches of records are the rows of each, one after the other.
   */
  lemma {:induction false} NonBlankAppend(a: seq<Record>, b: seq<Record>)
    ensures NonBlank(a + b) == NonBlank(a) + NonBlank(b)
    decreases |a|
  {
    if a == [] {
      assert a + b == b;
    } else {
      assert (a + b)[0] == a[0] && (a + b)[1..] == a[1..] + b;
      NonBlankAppend(a[1..], b);
    }
  }

  /** Without blank records every record is a row. */
  lemma {:induction false} NonBlankKeepsAll(records: seq<Record>)
    requires forall k :: 0 <= k < |records| ==> records[k] != []
    ensures NonBlank(records) == records
    decreases |records|
  {
    if records != [] {
      NonBlankKeepsAll(records[1..]);
      assert [records[0]] + records[1..] == records;
    }
  }

  /** The position whose cell `csv.DictReader` keeps for a header name: its last occurrence. */
  function LastIndexOf(header: Record, name: string): (i: nat)
    requires name in header
    ensures i < |header| && header[i] == name
    ensures forall j :: i < j < |header| ==> header[j] != name
  {
    if header[|header| - 1] == name then |header| - 1
    else LastIndexOf(header[..|header| - 1], name)
  }

  /** The value of field `name` in a row; `None` when the row is too short to reach it. */
  function Field(header: Record, cells: Record, name: string): (v: Option<string>)
    requires name in header
    ensures v.Some? <==> LastIndexOf(header, name) < |cells|
    ensures v.Some? ==> v.value == cells[LastIndexOf(header, name)]
  {
    var i := LastIndexOf(header, name);
    if i < |cells| then Some(cells[i]) else None
  }

  /** The key `csv.DictReader` files the cells beyond the header under (`restkey`). */
  const RestKey := "unnamed fields"

  /** A value of the dictionary `csv.DictReader` yields for a row. */
  datatype Entry = Cell(text: string) | Missing | Extra(cells: seq<string>)

  /** `dict(zip(header, cells))` over the first `m` pairs: a later column of a name wins. */
  function ZipDict(header: Record, cells: Record, m: nat): map<string, Entry>
    requires m <= |header| && m <= |cells|
  {
    if m == 0 then map[] else ZipDict(header, cells, m - 1)[header[m - 1] := Cell(cells[m - 1])]
  }

  /** `for key in keys: d[key] = restval`, with `restval` left at `None`. */
  function FillMissing(d: map<string, Entry>, keys: seq<string>): map<string, Entry>
    decreases |keys|
  {
    if keys == [] then d else FillMissing(d[keys[0] := Missing], keys[1..])
  }

  /**
    The dictionary `csv.DictReader` yields for a row, step by step: the header paired with
    the cells; the extra cells under `RestKey` when the row is longer than the header; `None`
    for the fields the row is too short to reach.
   */
  function DictRow(header: Record, cells: Record): map<string, Entry> {
    if |header| < |cells| then ZipDict(header, cells, |header|)[RestKey := Extra(cells[|header|..])]
    else FillMissing(ZipDict(header, cells, |cells|), header[|cells|..])
  }

  lemma {:induction false} ZipDictAt(header: Record, cells: Record, m: nat, i: nat)
    requires m <= |header| && m <= |cells| && i < m
    requires forall j :: i < j < m ==> header[j] != header[i]
    ensures header[i] in ZipDict(header, cells, m) && ZipDict(header, cells, m)[header[i]] == Cell(cells[i])
    decreases m
  {
    if i < m - 1 {
      ZipDictAt(header, cells, m - 1, i);
    }
  }

  lemma {:induction false} ZipDictOnly(header: Record, cells: Record, m: nat, name: string)
    requires m <= |header| && m <= |cells| && name !in header
    ensures name !in ZipDict(header, cells, m)
    decreases m
  {
    if m > 0 {
      ZipDictOnly(header, cells, m - 1, name);
    }
  }

  lemma {:induction false} FillMissingKeeps(d: map<string, Entry>, keys: seq<string>, name: string)
    requires name !in keys
    ensures (name in FillMissing(d, keys)) == (name in d)
    ensures name in d ==> FillMissing(d, keys)[name] == d[name]
    decreases |keys|
  {
    if keys != [] {
      assert keys[0] != name;
      FillMissingKeeps(d[keys[0] := Missing], keys[1..], name);
    }
  }

  lemma {:induction false} FillMissingSets(d: map<string, Entry>, keys: seq<string>, name: string)
    requires name in keys
    ensures name in FillMissing(d, keys) && FillMissing(d, keys)[name] == Missing
    decreases |keys|
  {
    var d' := d[keys[0] := Missing];
    if name in keys[1..] {
      FillMissingSets(d', keys[1..], name);
    } else {
      assert keys[0] == name;
      FillMissingKeeps(d', keys[1..], name);
    }
  }

  /**
    `Field` and the ragged flag of `ReadRow` are what `csv.DictReader`'s dictionary holds:
    each header name maps to its cell, or to `None` when the row is too short, and the
    extra key is present exactly when the row is longer than the header.
   */
  lemma DictRowAgrees(header: Record, cells: Record, name: string)
    requires RestKey !in header
    ensures (RestKey in DictRow(header, cells)) <==> |cells| > |header|
    ensures name in header ==>
      && name in DictRow(header, cells)
      && DictRow(header, cells)[name] == (match Field(header, cells, name) case Some(t) => Cell(t) case None => Missing)
  {
    var d := DictRow(header, cells);
    if |header| < |cells| {
      if name in header {
        var i := LastIndexOf(header, name);
        ZipDictAt(header, cells, |header|, i);
      }
    } else {
      var z := ZipDict(header, cells, |cells|);
      var rest := header[|cells|..];
      ZipDictOnly(header, cells, |cells|, RestKey);
      assert RestKey !in rest;
      FillMissingKeeps(z, rest, RestKey);
      if name in header {
        var i := LastIndexOf(header, name);
        if i < |cells| {
          ZipDictAt(header, cells, |cells|, i);
          assert name !in rest by {
            forall k | 0 <= k < |rest| ensures rest[k] != name {
              assert rest[k] == header[|cells| + k];
            }
          }
          FillMissingKeeps(z, rest, name);
        } else {
          assert rest[i - |cells|] == name;
          FillMissingSets(z, rest, name);
        }
      }
    }
  }

  /** A field as the Python value `int()` and `str()` are applied to. */
  function AsValue(v: Option<string>): Value {
    if v.Some? then VStr(v.value) else VNone
  }

  /** How `csv.DictReader` and the conversions read one record under `header`. */
  function ReadRow(header: Record, cells: Record): Row
    requires HasRequired(header)
  {
    Row(|cells| > |header|,
        ToInt(AsValue(Field(header, cells, IdField))),
        ToStr(AsValue(Field(header, cells, NameField))),
        ToInt(AsValue(Field(header, cells, PriorityField))),
        ToInt(AsValue(Field(header, cells, AllocationField))))
  }

  function ReadRows(header: Record, records: seq<Record>): (rows: seq<Row>)
    requires HasRequired(header)
    ensures |rows| == |records|
  {
    if records == [] then [] else [ReadRow(header, records[0])] + ReadRows(header, records[1..])
  }

  predicate AllowedNameChar(c: char) {
    c != ',' && c != '"' && 32 <= c as int <= 126
  }

  predicate NameOk(name: string) {
    |name| < NameLengthLimit && forall k :: 0 <= k < |name| ==> AllowedNameChar(name[k])
  }

  predicate InRange(v: Option<int>, lo: int, hi: int) {
    v.Some? && lo <= v.value <= hi
  }

  /** The position of the first character a name may not hold. */
  function FirstInvalidChar(name: string): (r: Option<nat>)
    ensures r.None? <==> forall k :: 0 <= k < |name| ==> AllowedNameChar(name[k])
    ensures r.Some? ==>
      && r.value < |name| && !AllowedNameChar(name[r.value])
      && forall k :: 0 <= k < r.value ==> AllowedNameChar(name[k])
  {
    if name == [] then None
    else if !AllowedNameChar(name[0]) then Some(0)
    else
      var rest := FirstInvalidChar(name[1..]);
      if rest.None? then None else Some(rest.value + 1)
  }

  /** A row every check accepts on its own (the duplicate check aside). */
  predicate RowValid(row: Row) {
    && !row.ragged
    && InRange(row.id, 0, IdLimit - 1)
    && NameOk(row.name)
    && InRange(row.priority, 0, MaxPriority)
    && InRange(row.allocation, 0, 1)
  }

  function RowRule(row: Row): Rule
    requires RowValid(row)
  {
    Rule(row.id.value, row.name, row.priority.value, row.allocation.value)
  }

  /** A rule within every bound the validator enforces. */
  predicate WellFormed(rule: Rule) {
    && 0 <= rule.id < IdLimit
    && NameOk(rule.name)
    && 0 <= rule.priority <= MaxPriority
    && 0 <= rule.allocation <= 1
  }

  /**
    The checks on one row, in the order the validator makes them; `seen` holds the
    ids of the rows before it.
   */
  function CheckRow(row: Row, seen: seq<int>): (r: Result<Rule, PolicyError>)
    ensures r.Ok? <==> RowValid(row) && RowRule(row).id !in seen
    ensures r.Ok? ==> r.value == RowRule(row) && WellFormed(r.value)
  {
    if row.ragged then Err(InvalidFormat)
    else
      match row.id
      case None => Err(InvalidId)
      case Some(id) =>
        if !(0 <= id < IdLimit) then Err(InvalidId)
        else if id in seen then Err(DuplicateId)
        else if |row.name| >= NameLengthLimit then Err(NameTooLong)
        else if FirstInvalidChar(row.name).Some? then Err(InvalidNameChar)
        else
          match row.priority
          case None => Err(InvalidPriority)
          case Some(priority) =>
            if !(0 <= priority <= MaxPriority) then Err(PriorityOutOfRange)
            else
              match row.allocation
              case None => Err(InvalidAllocation)
              case Some(allocation) =>
                if !(0 <= allocation <= 1) then Err(InvalidAllocation)
                else Ok(Rule(id, row.name, priority, allocation))
  }

  /**
    The checks on a row come in a fixed order: the row's length, the id, its
    uniqueness, the name's length, the name's characters, the priority, the allocation;
    each error is reported exactly when every check before it passed.
   */
  lemma CheckRowOrder(row: Row, seen: seq<int>)
    ensures var r := CheckRow(row, seen);
      var idOk := InRange(row.id, 0, IdLimit - 1);
      && (r == Err(InvalidFormat) <==> row.ragged)
      && (r == Err(InvalidId) <==> !row.ragged && !idOk)
      && (r == Err(DuplicateId) <==> !row.ragged && idOk && row.id.value in seen)
      && (r == Err(NameTooLong) <==>
            !row.ragged && idOk && row.id.value !in seen && |row.name| >= NameLengthLimit)
      && (r == Err(InvalidNameChar) <==>
            !row.ragged && idOk && row.id.value !in seen
            && |row.name| < NameLengthLimit && !NameOk(row.name))
      && (r == Err(InvalidPriority) <==>
            !row.ragged && idOk && row.id.value !in seen && NameOk(row.name) && row.priority.None?)
      && (r == Err(PriorityOutOfRange) <==>
            !row.ragged && idOk && row.id.value !in seen && NameOk(row.name)
            && row.priority.Some? && !InRange(row.priority, 0, MaxPriority))
      && (r == Err(InvalidAllocation) <==>
            !row.ragged && idOk && row.id.value !in seen && NameOk(row.name)
            && InRange(row.priority, 0, MaxPriority) && !InRange(row.allocation, 0, 1))
  {
  }

  /** The rows in order, each checked against the ids of the rows accepted before it. */
  function CheckRows(rows: seq<Row>, seen: seq<int>): (r: Result<seq<Rule>, PolicyError>)
    decreases |rows|
  {
    if rows == [] then Ok([])
    else
      match CheckRow(rows[0], seen)
      case Err(e) => Err(e)
      case Ok(rule) =>
        match CheckRows(rows[1..], seen + [rule.id])
        case Err(e) => Err(e)
        case Ok(rest) => Ok([rule] + rest)
  }

  predicate AllValid(rows: seq<Row>) {
    forall k :: 0 <= k < |rows| ==> RowValid(rows[k])
  }

  /** The ids of valid rows, in order. */
  function RowIds(rows: seq<Row>): (ids: seq<int>)
    requires AllValid(rows)
    ensures |ids| == |rows|
    ensures forall k :: 0 <= k < |rows| ==> ids[k] == RowRule(rows[k]).id
    decreases |rows|
  {
    if rows == [] then [] else [RowRule(rows[0]).id] + RowIds(rows[1..])
  }

  predicate Distinct(ids: seq<int>) {
    forall i, j :: 0 <= i < j < |ids| ==> ids[i] != ids[j]
  }

  predicate Disjoint(ids: seq<int>, seen: seq<int>) {
    forall k :: 0 <= k < |ids| ==> ids[k] !in seen
  }

  /** The ids of a sequence of rules. */
  function Ids(rules: seq<Rule>): (ids: seq<int>)
    ensures |ids| == |rules|
    ensures forall k :: 0 <= k < |rules| ==> ids[k] == rules[k].id
  {
    if rules == [] then [] else [rules[0].id] + Ids(rules[1..])
  }

  /** Putting an id in front keeps the ids distinct and unseen exactly when it is new. */
  lemma DistinctCons(id: int, ids: seq<int>, seen: seq<int>)
    ensures Distinct([id] + ids) && Disjoint([id] + ids, seen)
        <==> id !in seen && Distinct(ids) && Disjoint(ids, seen + [id])
  {
    var all := [id] + ids;
    if id !in seen && Distinct(ids) && Disjoint(ids, seen + [id]) {
      forall i, j | 0 <= i < j < |all| ensures all[i] != all[j] {
        assert all[j] == ids[j - 1];
        if i > 0 { assert all[i] == ids[i - 1]; }
      }
      forall k | 0 <= k < |all| ensures all[k] !in seen {
        if k > 0 { assert all[k] == ids[k - 1]; }
      }
    }
    if Distinct(all) && Disjoint(all, seen) {
      assert all[0] == id && all[0] !in seen;
      forall i, j | 0 <= i < j < |ids| ensures ids[i] != ids[j] {
        assert ids[i] == all[i + 1] && ids[j] == all[j + 1];
      }
      forall k | 0 <= k < |ids| ensures ids[k] !in seen + [id] {
        assert ids[k] == all[k + 1] && all[0] == id;
      }
    }
  }

  lemma AllValidCons(rows: seq<Row>)
    requires rows != []
    ensures AllValid(rows) <==> RowValid(rows[0]) && AllValid(rows[1..])
  {
    if RowValid(rows[0]) && AllValid(rows[1..]) {
      forall k | 0 <= k < |rows| ensures RowValid(rows[k]) {
        if k > 0 { assert rows[k] == rows[1..][k - 1]; }
      }
    }
  }

  /**
    All or nothing: the rows are accepted exactly when every row passes every check on
    its own and no id repeats, among the rows or with an id seen before.
   */
  lemma {:induction false} CheckRowsAccepts(rows: seq<Row>, seen: seq<int>)
    ensures CheckRows(rows, seen).Ok?
        <==> AllValid(rows) && Distinct(RowIds(rows)) && Disjoint(RowIds(rows), seen)
    decreases |rows|
  {
    if rows != [] {
      var head := CheckRow(rows[0], seen);
      var tail := rows[1..];
      AllValidCons(rows);
      if head.Ok? {
        var id := head.value.id;
        CheckRowsAccepts(tail, seen + [id]);
        if AllValid(rows) {
          assert RowIds(rows) == [id] + RowIds(tail);
          DistinctCons(id, RowIds(tail), seen);
        }
      } else if AllValid(rows) {
        assert RowIds(rows)[0] in seen;
      }
    }
  }

  /** Accepted rows give their own rules, in order. */
  lemma {:induction false} CheckRowsRules(rows: seq<Row>, seen: seq<int>)
    requires CheckRows(rows, seen).Ok?
    ensures var rules := CheckRows(rows, seen).value;
      && |rules| == |rows|
      && forall k :: 0 <= k < |rows| ==> RowValid(rows[k]) && rules[k] == RowRule(rows[k])
    decreases |rows|
  {
    if rows != [] {
      var head := CheckRow(rows[0], seen).value;
      var tail := rows[1..];
      CheckRowsRules(tail, seen + [head.id]);
      var rest := CheckRows(tail, seen + [head.id]).value;
      assert CheckRows(rows, seen).value == [head] + rest;
      forall k | 1 <= k < |rows| ensures rows[k] == tail[k - 1] { }
    }
  }

  /** Checking rows that start with an accepted row is checking the rest after it. */
  lemma CheckRowsCons(rows: seq<Row>, seen: seq<int>)
    requires rows != [] && CheckRow(rows[0], seen).Ok?
    ensures var rule := CheckRow(rows[0], seen).value;
      var rest := CheckRows(rows[1..], seen + [rule.id]);
      CheckRows(rows, seen) == if rest.Ok? then Ok([rule] + rest.value) else rest
  {
  }

  /** The ids seen after a rule and then some more rules. */
  lemma IdsCons(seen: seq<int>, rule: Rule, rest: seq<Rule>)
    ensures seen + Ids([rule] + rest) == seen + [rule.id] + Ids(rest)
  {
    var all := [rule] + rest;
    assert all[0] == rule && all[1..] == rest;
    assert Ids(all) == [rule.id] + Ids(rest);
    assert seen + ([rule.id] + Ids(rest)) == seen + [rule.id] + Ids(rest);
  }

  /**
    The error reported is the one the first failing row gives, checked against the ids
    of the rows before it, all of which passed.
   */
  lemma {:induction false} CheckRowsFirstFailure(rows: seq<Row>, seen: seq<int>)
    requires CheckRows(rows, seen).Err?
    ensures exists k :: (
      && 0 <= k < |rows|
      && CheckRows(rows[..k], seen).Ok?
      && CheckRow(rows[k], seen + Ids(CheckRows(rows[..k], seen).value)) == Err(CheckRows(rows, seen).error))
    decreases |rows|
  {
    var e := CheckRows(rows, seen).error;
    var head := CheckRow(rows[0], seen);
    if head.Err? {
      assert rows[..0] == [];
      assert CheckRows(rows[..0], seen) == Ok([]);
      assert seen + Ids([]) == seen;
      assert CheckRow(rows[0], seen) == Err(e);
    } else {
      var id := head.value.id;
      var seen' := seen + [id];
      var tail := rows[1..];
      assert CheckRows(tail, seen').Err? && CheckRows(tail, seen').error == e;
      CheckRowsFirstFailure(tail, seen');
      var k :| 0 <= k < |tail|
        && CheckRows(tail[..k], seen').Ok?
        && CheckRow(tail[k], seen' + Ids(CheckRows(tail[..k], seen').value)) == Err(e);
      var before := CheckRows(tail[..k], seen').value;
      var prefix := rows[..k + 1];
      assert CheckRows(prefix, seen) == Ok([head.value] + before) by {
        assert prefix[0] == rows[0] && prefix[1..] == tail[..k];
        CheckRowsCons(prefix, seen);
      }
      IdsCons(seen, head.value, before);
      assert rows[k + 1] == tail[k];
    }
  }

  /** The rules of valid rows with distinct ids are well formed and have distinct ids. */
  lemma RulesWellFormed(rows: seq<Row>, rules: seq<Rule>)
    requires AllValid(rows) && Distinct(RowIds(rows))
    requires |rules| == |rows| && forall k :: 0 <= k < |rows| ==> rules[k] == RowRule(rows[k])
    ensures Distinct(Ids(rules))
    ensures forall k :: 0 <= k < |rules| ==> WellFormed(rules[k])
  {
    assert Ids(rules) == RowIds(rows);
    forall k | 0 <= k < |rules| ensures WellFormed(rules[k]) {
      assert RowValid(rows[k]);
    }
  }

  /** The rows of a file: its non-blank records after the header, as read under the header. */
  function FileRows(records: seq<Record>): seq<Row>
    requires records != [] && HasRequired(records[0])
  {
    ReadRows(records[0], NonBlank(records[1..]))
  }

  /** A file that passes validation. */
  predicate Accepted(records: seq<Record>) {
    && records != []
    && FieldSet(records[0]) == RequiredFields
    && HasRequired(records[0])
    && AllValid(FileRows(records))
    && Distinct(RowIds(FileRows(records)))
  }

  /**
    `validate_ioclass_file(name)`; `files` gives the records of the file at a path, or
    `None` when there is none. On success the rules of the file's rows are returned
    (`validate_ioclass_file` itself returns nothing).
   */
  function ValidateIoClassFile(name: Value, files: string -> Option<seq<Record>>)
    : (r: Result<seq<Rule>, PolicyError>)
    // no file name, nothing to check
    ensures name == VNone ==> r == Ok([])
    ensures name != VNone ==>
      var file := files(FilesDir + ToStr(name));
      && (file.None? ==> r == Err(FileNotFound))
      && (file == Some([]) ==> r == Err(NoHeader))
      // a wrong header rejects the file whatever its rows hold
      && (file.Some? && file.value != [] && FieldSet(file.value[0]) != RequiredFields ==>
            r == Err(InvalidFormat))
    ensures r.Ok? ==> Distinct(Ids(r.value)) && forall k :: 0 <= k < |r.value| ==> WellFormed(r.value[k])
  {
    if name == VNone then Ok([])
    else
      match files(FilesDir + ToStr(name))
      case None => Err(FileNotFound)
      case Some(records) =>
        if records == [] then Err(NoHeader)
        else
          var header := records[0];
          if FieldSet(header) != RequiredFields then Err(InvalidFormat)
          else
            RequiredFieldsPresent(header);
            var rows := FileRows(records);
            var r := CheckRows(rows, []);
            if r.Ok? then
              CheckRowsAccepts(rows, []);
              CheckRowsRules(rows, []);
              RulesWellFormed(rows, r.value);
              r
            else r
  }

  /**
    All or nothing: a named file is accepted exactly when its header is right, every
    row passes every check and no id repeats; then it gives one rule per non-blank row.
   */
  lemma ValidateAllOrNothing(name: Value, files: string -> Option<seq<Record>>)
    requires name != VNone
    ensures var file := files(FilesDir + ToStr(name));
      var r := ValidateIoClassFile(name, files);
      && (r.Ok? <==> file.Some? && Accepted(file.value))
      && (r.Ok? ==> |r.value| == |NonBlank(file.value[1..])|)
  {
    var file := files(FilesDir + ToStr(name));
    if file.Some? && file.value != [] && FieldSet(file.value[0]) == RequiredFields {
      var records := file.value;
      RequiredFieldsPresent(records[0]);
      var rows := FileRows(records);
      CheckRowsAccepts(rows, []);
      if CheckRows(rows, []).Ok? {
        CheckRowsRules(rows, []);
      }
    }
  }

  /** The header of a file written with the columns in their usual order. */
  const StandardHeader: Record := [IdField, NameField, PriorityField, AllocationField]

  /** A rule written as a CSV record under the standard header, numbers in decimal. */
  function RuleRecord(rule: Rule): Record {
    [ShowInt(rule.id), rule.name, ShowInt(rule.priority), ShowInt(rule.allocation)]
  }

  function RuleRecords(rules: seq<Rule>): (records: seq<Record>)
    ensures |records| == |rules|
    ensures forall k :: 0 <= k < |records| ==> records[k] != []
  {
    if rules == [] then [] else [RuleRecord(rules[0])] + RuleRecords(rules[1..])
  }

  /** The row a rule reads back as. */
  function RuleRow(rule: Rule): Row {
    Row(false, Some(rule.id), rule.name, Some(rule.priority), Some(rule.allocation))
  }

  function RuleRows(rules: seq<Rule>): (rows: seq<Row>)
    ensures |rows| == |rules|
    ensures forall k :: 0 <= k < |rules| ==> rows[k] == RuleRow(rules[k])
  {
    if rules == [] then [] else [RuleRow(rules[0])] + RuleRows(rules[1..])
  }

  /** A written rule reads back as its own values. */
  lemma ReadRuleRecord(rule: Rule)
    ensures HasRequired(StandardHeader)
    ensures ReadRow(StandardHeader, RuleRecord(rule)) == RuleRow(rule)
  {
    var h := StandardHeader;
    assert LastIndexOf(h, IdField) == 0;
    assert LastIndexOf(h, NameField) == 1;
    assert LastIndexOf(h, PriorityField) == 2;
    assert LastIndexOf(h, AllocationField) == 3;
    IntStrRoundTrip(VInt(rule.id));
    IntStrRoundTrip(VInt(rule.priority));
    IntStrRoundTrip(VInt(rule.allocation));
  }

  lemma ReadRowsCons(header: Record, first: Record, rest: seq<Record>)
    requires HasRequired(header)
    ensures ReadRows(header, [first] + rest) == [ReadRow(header, first)] + ReadRows(header, rest)
  {
    assert ([first] + rest)[1..] == rest;
  }

  /** Written rules read back as the rows of those rules. */
  lemma {:induction false} ReadRuleRecords(rules: seq<Rule>)
    ensures HasRequired(StandardHeader)
    ensures ReadRows(StandardHeader, RuleRecords(rules)) == RuleRows(rules)
    decreases |rules|
  {
    ReadRuleRecord(Rule(0, "", 0, 0));
    if rules != [] {
      ReadRuleRecords(rules[1..]);
      ReadRuleRecord(rules[0]);
      ReadRowsCons(StandardHeader, RuleRecord(rules[0]), RuleRecords(rules[1..]));
      assert RuleRows(rules) == [RuleRow(rules[0])] + RuleRows(rules[1..]);
    }
  }

  /** A well-formed rule whose id is new passes the row checks as itself. */
  lemma CheckRuleRow(rule: Rule, seen: seq<int>)
    requires WellFormed(rule) && rule.id !in seen
    ensures CheckRow(RuleRow(rule), seen) == Ok(rule)
  {
    assert RowValid(RuleRow(rule));
  }

  /**
    The rows of well-formed rules whose ids are distinct and unseen are accepted as
    exactly those rules.
   */
  lemma {:induction false} AcceptedAsRules(rules: seq<Rule>, seen: seq<int>)
    requires forall k :: 0 <= k < |rules| ==> WellFormed(rules[k])
    requires Distinct(Ids(rules)) && Disjoint(Ids(rules), seen)
    ensures CheckRows(RuleRows(rules), seen) == Ok(rules)
    decreases |rules|
  {
    if rules != [] {
      var rule := rules[0];
      var rest := rules[1..];
      var rows := RuleRows(rules);
      assert rows == [RuleRow(rule)] + RuleRows(rest);
      assert Ids(rules) == [rule.id] + Ids(rest);
      DistinctCons(rule.id, Ids(rest), seen);
      CheckRuleRow(rule, seen);
      assert forall k :: 0 <= k < |rest| ==> WellFormed(rest[k]) by {
        forall k | 0 <= k < |rest| ensures WellFormed(rest[k]) {
          assert rest[k] == rules[k + 1];
        }
      }
      AcceptedAsRules(rest, seen + [rule.id]);
      assert rows[0] == RuleRow(rule) && rows[1..] == RuleRows(rest);
      CheckRowsCons(rows, seen);
      assert [rule] + rest == rules;
    }
  }

  /** Rules a policy file can hold: each within bounds, no id twice. */
  predicate Writable(rules: seq<Rule>) {
    (forall k :: 0 <= k < |rules| ==> WellFormed(rules[k])) && Distinct(Ids(rules))
  }

  /** The rows of rules a policy file can hold are accepted as exactly those rules. */
  lemma RulesAccepted(rules: seq<Rule>)
    requires Writable(rules)
    ensures CheckRows(RuleRows(rules), []) == Ok(rules)
  {
    AcceptedAsRules(rules, []);
  }

  /** The standard header names each required field once. */
  lemma StandardHeaderFields()
    ensures FieldSet(StandardHeader) == RequiredFields
  {
    assert StandardHeader[0] == IdField && StandardHeader[1] == NameField;
    assert StandardHeader[2] == PriorityField && StandardHeader[3] == AllocationField;
  }

  /** Past the name and header checks, validating a file is checking its rows. */
  lemma ValidateChecksRows(name: Value, files: string -> Option<seq<Record>>, records: seq<Record>)
    requires name != VNone && files(FilesDir + ToStr(name)) == Some(records)
    requires records != [] && FieldSet(records[0]) == RequiredFields
    ensures HasRequired(records[0])
    ensures ValidateIoClassFile(name, files) == CheckRows(FileRows(records), [])
  {
    RequiredFieldsPresent(records[0]);
  }

  /** Validating a file written from rules is checking the rows of those rules. */
  lemma ValidateWrittenRows(name: string, rules: seq<Rule>, files: string -> Option<seq<Record>>)
    requires files(FilesDir + name) == Some([StandardHeader] + RuleRecords(rules))
    ensures ValidateIoClassFile(VStr(name), files) == CheckRows(RuleRows(rules), [])
  {
    var records := [StandardHeader] + RuleRecords(rules);
    assert records[0] == StandardHeader;
    StandardHeaderFields();
    ValidateChecksRows(VStr(name), files, records);
    assert FileRows(records) == RuleRows(rules) by {
      assert records[1..] == RuleRecords(rules);
      NonBlankKeepsAll(RuleRecords(rules));
      ReadRuleRecords(rules);
    }
  }

  /**
    Writing well-formed rules with distinct ids to a file under the standard header
    gives a file that validates, and validation gives back exactly those rules.
   */
  lemma WrittenFileValidates(name: string, rules: seq<Rule>, files: string -> Option<seq<Record>>)
    requires Writable(rules)
    requires files(FilesDir + name) == Some([StandardHeader] + RuleRecords(rules))
    ensures ValidateIoClassFile(VStr(name), files) == Ok(rules)
  {
    ValidateWrittenRows(name, rules, files);
    RulesAccepted(rules);
  }
}
