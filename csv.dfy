/** The CSV import and export of the prototype board, on rows as the CSV library hands them
    over (header-keyed records) and takes them back (flat row objects). */
module Csv {
  import opened Js
  import opened Boards
  import opened Mutations

  /** A parsed CSV line: header name to cell text. A header the file lacks has no entry. */
  type CsvRecord = map<string, string>

  /** `r[key]`, with a missing cell read as `undefined` (falsy). */
  function Cell(r: CsvRecord, key: string): string
  {
    if key in r then r[key] else ""
  }

  /** The name of an imported player: the first truthy of `name`, `Name`, `NAME`, else
      `'Unnamed'`. */
  function RowName(r: CsvRecord): string
  {
    Or(Cell(r, "name"), Or(Cell(r, "Name"), Or(Cell(r, "NAME"), "Unnamed")))
  }

  /** The notes of a player imported by `importCSVText`: the first truthy of `notes`,
      `Notes`, `NOTES`, else empty. */
  function RowNotes(r: CsvRecord): string
  {
    Or(Cell(r, "notes"), Or(Cell(r, "Notes"), Or(Cell(r, "NOTES"), "")))
  }

  /** The notes as `importCSV` computes them: `notes` is consulted twice and the other two
      spellings never. */
  function RowNotesImportCsv(r: CsvRecord): string
  {
    Or(Cell(r, "notes"), Or(Cell(r, "notes"), ""))
  }

  /** An imported name is never empty: it is the first filled of `name`, `Name` and `NAME`,
      in that order, or `'Unnamed'` exactly when all three are empty. */
  lemma RowNameChoices(r: CsvRecord)
    ensures RowName(r) != ""
    ensures RowName(r) == Cell(r, "name") || RowName(r) == Cell(r, "Name")
            || RowName(r) == Cell(r, "NAME") || RowName(r) == "Unnamed"
    ensures Cell(r, "name") == "" && Cell(r, "Name") == "" && Cell(r, "NAME") == "" ==> RowName(r) == "Unnamed"
    ensures Cell(r, "name") != "" ==> RowName(r) == r["name"]
    ensures Cell(r, "name") == "" && Cell(r, "Name") != "" ==> RowName(r) == r["Name"]
    ensures Cell(r, "name") == "" && Cell(r, "Name") == "" && Cell(r, "NAME") != "" ==> RowName(r) == r["NAME"]
  {
  }

  /** Imported notes come from the first filled of `notes`, `Notes` and `NOTES`, in that
      order, and are empty only when all three are. */
  lemma RowNotesChoices(r: CsvRecord)
    ensures RowNotes(r) == "" <==> Cell(r, "notes") == "" && Cell(r, "Notes") == "" && Cell(r, "NOTES") == ""
    ensures RowNotes(r) == Cell(r, "notes") || RowNotes(r) == Cell(r, "Notes") || RowNotes(r) == Cell(r, "NOTES")
    ensures Cell(r, "notes") != "" ==> RowNotes(r) == r["notes"]
    ensures Cell(r, "notes") == "" && Cell(r, "Notes") != "" ==> RowNotes(r) == r["Notes"]
    ensures Cell(r, "notes") == "" && Cell(r, "Notes") == "" && Cell(r, "NOTES") != "" ==> RowNotes(r) == r["NOTES"]
  {
  }

  /** A file whose notes column is headed `Notes` loses its notes through `importCSV`, and
      keeps them through `importCSVText`. */
  lemma ImportCsvDropsCapitalisedNotes()
    ensures RowNotesImportCsv(map["Notes" := "left foot"]) == ""
    ensures RowNotes(map["Notes" := "left foot"]) == "left foot"
  {
    var r: CsvRecord := map["Notes" := "left foot"];
    assert "notes" != "Notes" by { assert "notes"[0] != "Notes"[0]; }
    assert "notes" !in r;
  }

  /** The board after the rows are added one by one, each under the next fresh id. */
  function ImportAll(b: Board, rows: seq<CsvRecord>, ids: seq<Id>): Board
    requires |ids| == |rows|
    decreases |rows|
  {
    if rows == [] then b
    else ImportAll(AddPlayer(b, ids[0], RowName(rows[0]), RowNotes(rows[0])), rows[1..], ids[1..])
  }

  /** `s` back to front. */
  function Reversed(s: seq<Id>): (r: seq<Id>)
    ensures |r| == |s| && forall i :: 0 <= i < |s| ==> r[i] == s[|s| - 1 - i]
    decreases |s|
  {
    if s == [] then [] else Reversed(s[1..]) + [s[0]]
  }

  /** The ids of fresh players go to the front of Available one after another, so they end
      up in reverse row order, ahead of the ids that were there; the buckets stay. */
  lemma {:induction false} ImportOrder(b: Board, rows: seq<CsvRecord>, ids: seq<Id>)
    requires |ids| == |rows|
    ensures var next := ImportAll(b, rows, ids);
      && next.availableOrder == Reversed(ids) + b.availableOrder
      && next.buckets == b.buckets
    decreases |rows|
  {
    if rows != [] {
      var b1 := AddPlayer(b, ids[0], RowName(rows[0]), RowNotes(rows[0]));
      ImportOrder(b1, rows[1..], ids[1..]);
      assert ImportAll(b, rows, ids) == ImportAll(b1, rows[1..], ids[1..]);
      assert Reversed(ids[1..]) + ([ids[0]] + b.availableOrder) == Reversed(ids) + b.availableOrder;
    }
  }

  /** Each row becomes the player stored under its id; every player that was there keeps
      its record, and no other key appears. */
  lemma {:induction false} ImportPlayers(b: Board, rows: seq<CsvRecord>, ids: seq<Id>)
    requires |ids| == |rows| && Distinct(ids)
    requires forall id :: id in ids ==> id !in b.players
    ensures var next := ImportAll(b, rows, ids);
      && (forall i :: 0 <= i < |ids| ==>
            ids[i] in next.players && next.players[ids[i]] == Player(ids[i], RowName(rows[i]), RowNotes(rows[i])))
      && (forall id :: id in next.players <==> id in b.players || id in ids)
      && (forall id :: id in b.players ==> next.players[id] == b.players[id])
    decreases |rows|
  {
    if rows != [] {
      var b1 := AddPlayer(b, ids[0], RowName(rows[0]), RowNotes(rows[0]));
      DistinctTail(ids);
      ImportPlayers(b1, rows[1..], ids[1..]);
      forall i | 0 <= i < |ids|
        ensures ids[i] in ImportAll(b, rows, ids).players
        ensures ImportAll(b, rows, ids).players[ids[i]] == Player(ids[i], RowName(rows[i]), RowNotes(rows[i]))
      {
        if i > 0 {
          assert ids[1..][i - 1] == ids[i] && rows[1..][i - 1] == rows[i];
        }
      }
    }
  }

  /** Importing keeps a valid board valid. */
  lemma {:induction false} ImportKeepsValid(b: Board, rows: seq<CsvRecord>, ids: seq<Id>)
    requires |ids| == |rows| && Distinct(ids) && Valid(b)
    requires forall id :: id in ids ==> id !in b.players
    ensures Valid(ImportAll(b, rows, ids))
    decreases |rows|
  {
    if rows != [] {
      AddPlayerKeepsValid(b, ids[0], RowName(rows[0]), RowNotes(rows[0]));
      var b1 := AddPlayer(b, ids[0], RowName(rows[0]), RowNotes(rows[0]));
      DistinctTail(ids);
      ImportKeepsValid(b1, rows[1..], ids[1..]);
    }
  }

  /** The row loop of `importCSVText`: each row in turn becomes a player under its own
      fresh id, put at the front of Available. */
  method ImportRows(b: Board, rows: seq<CsvRecord>, ids: seq<Id>) returns (next: Board)
    requires |ids| == |rows|
    ensures next == ImportAll(b, rows, ids)
  {
    next := b;
    var i := 0;
    while i < |rows|
      invariant 0 <= i <= |rows|
      invariant ImportAll(next, rows[i..], ids[i..]) == ImportAll(b, rows, ids)
    {
      assert rows[i..][1..] == rows[i + 1..] && ids[i..][1..] == ids[i + 1..];
      next := AddPlayer(next, ids[i], RowName(rows[i]), RowNotes(rows[i]));
      i := i + 1;
    }
    assert rows[i..] == [];
  }

  /** One line of the export: `{ id, name, notes, bucket, position }`. */
  datatype ExportRow = ExportRow(id: Id, name: string, notes: string, bucket: string, position: nat)

  /** The row `add(id, bucket, pos)` pushes for an id that has a player. */
  function RowOf(b: Board, id: Id, bucket: string, pos: nat): ExportRow
    requires id in b.players
  {
    ExportRow(id, b.players[id].name, b.players[id].notes, bucket, pos)
  }

  /** `out` holds one row per entry of `list`, in list order, with the zero-based position
      of the entry in that list. */
  ghost predicate ListRows(b: Board, list: seq<Id>, bucket: string, out: seq<ExportRow>)
  {
    |out| == |list| && forall i :: 0 <= i < |list| ==> list[i] in b.players && out[i] == RowOf(b, list[i], bucket, i)
  }

  /** Every id of `list` has a player. */
  ghost predicate AllPlayers(b: Board, list: seq<Id>)
  {
    forall id :: id in list ==> id in b.players
  }

  /** `list.forEach((id, i) => add(id, bucket, i))` after the rows already pushed: reading
      `.name` of a missing player throws. */
  method PushList(b: Board, list: seq<Id>, bucket: string, rows: seq<ExportRow>) returns (r: Result<seq<ExportRow>>)
    ensures r.Throws? <==> !AllPlayers(b, list)
    ensures r.Ok? ==> |r.value| == |rows| + |list| && r.value[..|rows|] == rows
                      && ListRows(b, list, bucket, r.value[|rows|..])
  {
    var acc := rows;
    var i := 0;
    while i < |list|
      invariant 0 <= i <= |list|
      invariant |acc| == |rows| + i && acc[..|rows|] == rows
      invariant forall j :: 0 <= j < i ==> list[j] in b.players && acc[|rows| + j] == RowOf(b, list[j], bucket, j)
    {
      if list[i] !in b.players {
        return Throws;
      }
      acc := acc + [RowOf(b, list[i], bucket, i)];
      i := i + 1;
    }
    return Ok(acc);
  }

  /** `rows` is the export of `b`: Available first under `'available'`, then the buckets in
      the order `yes`, `maybe`, `no`, each under its key, positions counted per list. */
  ghost predicate Exported(b: Board, rows: seq<ExportRow>)
  {
    var a, y, m := |b.availableOrder|, |b.buckets.yes|, |b.buckets.maybe|;
    && |rows| == |Listed(b)|
    && ListRows(b, b.availableOrder, ListName(Available), rows[..a])
    && ListRows(b, b.buckets.yes, ListName(Yes), rows[a..a + y])
    && ListRows(b, b.buckets.maybe, ListName(Maybe), rows[a + y..a + y + m])
    && ListRows(b, b.buckets.no, ListName(No), rows[a + y + m..])
  }

  /** The rows of `exportCSV`: Available first under `'available'`, then the buckets in
      the order `yes`, `maybe`, `no`, each under its key, positions counted per list. The
      export throws exactly when some listed id has no player, so never on a valid board. */
  method ExportRows(b: Board) returns (r: Result<seq<ExportRow>>)
    ensures r.Throws? <==> !AllPlayers(b, Listed(b))
    ensures Valid(b) ==> r.Ok?
    ensures r.Ok? ==> Exported(b, r.value)
  {
    ListedAllPlayers(b);
    var r1 := PushList(b, b.availableOrder, ListName(Available), []);
    if r1.Throws? {
      return Throws;
    }
    var r2 := PushList(b, b.buckets.yes, ListName(Yes), r1.value);
    if r2.Throws? {
      return Throws;
    }
    var r3 := PushList(b, b.buckets.maybe, ListName(Maybe), r2.value);
    if r3.Throws? {
      return Throws;
    }
    var r4 := PushList(b, b.buckets.no, ListName(No), r3.value);
    if r4.Throws? {
      return Throws;
    }
    ExportLayout(b, r1.value, r2.value, r3.value, r4.value);
    return r4;
  }

  /** The four pushes, one after another, lay the rows out list by list. */
  lemma ExportLayout(b: Board, s1: seq<ExportRow>, s2: seq<ExportRow>, s3: seq<ExportRow>, s4: seq<ExportRow>)
    requires |s1| == |b.availableOrder| && s1[..0] == [] && ListRows(b, b.availableOrder, ListName(Available), s1[0..])
    requires |s2| == |s1| + |b.buckets.yes| && s2[..|s1|] == s1 && ListRows(b, b.buckets.yes, ListName(Yes), s2[|s1|..])
    requires |s3| == |s2| + |b.buckets.maybe| && s3[..|s2|] == s2 && ListRows(b, b.buckets.maybe, ListName(Maybe), s3[|s2|..])
    requires |s4| == |s3| + |b.buckets.no| && s4[..|s3|] == s3 && ListRows(b, b.buckets.no, ListName(No), s4[|s3|..])
    ensures Exported(b, s4)
  {
    Segments(s4, s3, s2, s1);
    assert s1[0..] == s1;
  }

  lemma ListedAllPlayers(b: Board)
    ensures AllPlayers(b, Listed(b)) <==> AllPlayers(b, b.availableOrder) && AllPlayers(b, b.buckets.yes)
                                          && AllPlayers(b, b.buckets.maybe) && AllPlayers(b, b.buckets.no)
    ensures Valid(b) ==> AllPlayers(b, Listed(b))
  {
    if Valid(b) {
      forall id | id in Listed(b) ensures id in b.players {
        OccurrencesOfListed(b, id);
      }
    }
  }

  lemma Segments(rows: seq<ExportRow>, s3: seq<ExportRow>, s2: seq<ExportRow>, s1: seq<ExportRow>)
    requires |s1| <= |s2| <= |s3| <= |rows|
    requires rows[..|s3|] == s3 && s3[..|s2|] == s2 && s2[..|s1|] == s1
    ensures rows[..|s1|] == s1 && rows[|s1|..|s2|] == s2[|s1|..] && rows[|s2|..|s3|] == s3[|s2|..]
  {
    assert rows[..|s2|] == s3[..|s2|];
    assert rows[..|s1|] == s2[..|s1|];
  }
}
