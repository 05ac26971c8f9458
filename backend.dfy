/**
 * The Apps Script web app that serves as the store (kept as a comment block in
 * services/api.ts): a sheet of rows, `doPost` for create, delete and update, and
 * `doGet` turning the rows into the JSON records the client fetches.
 *
 * Drive is a parameter: storing the uploaded image either yields the new file's id
 * or fails, in which case the whole request fails before the sheet is touched.
 */
module Backend {
  import opened Common
  import Strings
  import Api

  /** A sheet cell as `getValues` returns it; an empty cell reads as the empty string. */
  datatype Cell = Text(s: string) | Number(n: SafeInteger)

  /** The cell's `toString()`. */
  function CellString(c: Cell): string {
    match c
    case Text(s) => s
    case Number(n) => Strings.IntToString(n)
  }

  /** JavaScript truthiness of a cell value. */
  predicate Truthy(c: Cell) {
    match c
    case Text(s) => s != ""
    case Number(n) => n != 0
  }

  /** One sheet row, columns A to G. */
  datatype Row = Row(id: Cell, date: Cell, title: Cell, description: Cell, image: Cell, rotation: Cell, swayClass: Cell)

  /** One object of the JSON array `doGet` returns. */
  datatype Record = Record(id: Cell, date: Cell, title: Cell, description: Cell, imageUrl: string, rotation: Cell, swayClass: Cell)

  datatype Status = Success | Error

  /** The `status` field of a `doPost` reply; the client accepts exactly the word a success writes. */
  function StatusWord(status: Status): (word: string)
    ensures Api.Succeeded(Api.Answered(word)) <==> status == Success
  {
    match status
    case Success => "success"
    case Error => "error"
  }

  /** The Drive thumbnail URL of a file, up to its id: "https://drive.google.com/thumbnail?sz=w1000&id=". */
  const ThumbnailPrefix: string := "https://" + "drive.google" + ".com/" + "thumbnail" + "?sz=w1000" + "&id="
  const Base64Prefix: string := "data:image/jpeg;base64,"

  /** The row `create` appends: the client's fields, the Drive thumbnail URL, rotation defaulting to 0 and sway class to ''. */
  function NewRow(m: Api.NewMemory, fileId: string): Row
  {
    Row(Text(m.id), Text(m.date), Text(m.title), Text(m.description),
        Text(ThumbnailPrefix + fileId), Number(m.rotation.GetOr(0)), Text(m.swayClass.GetOr("")))
  }

  /** `rows[i][0].toString() == id.toString()`. */
  predicate IdMatches(row: Row, id: string) {
    CellString(row.id) == id
  }

  /** The index of the last element satisfying `p`, if any. */
  function LastWhere<T>(s: seq<T>, p: T -> bool): (k: Option<nat>)
    ensures k.Some? ==> k.value < |s| && p(s[k.value])
    ensures k.Some? ==> forall j :: k.value < j < |s| ==> !p(s[j])
    ensures k.None? ==> forall j :: 0 <= j < |s| ==> !p(s[j])
  {
    if s == [] then None
    else if p(s[|s| - 1]) then Some(|s| - 1)
    else LastWhere(s[..|s| - 1], p)
  }

  /** The index of the first element satisfying `p`, if any. */
  function FirstWhere<T>(s: seq<T>, p: T -> bool): (k: Option<nat>)
    ensures k.Some? ==> k.value < |s| && p(s[k.value])
    ensures k.Some? ==> forall j :: 0 <= j < k.value ==> !p(s[j])
    ensures k.None? ==> forall j :: 0 <= j < |s| ==> !p(s[j])
  {
    if s == [] then None
    else if p(s[0]) then Some(0)
    else
      var k := FirstWhere(s[1..], p);
      if k.Some? then Some(k.value + 1) else None
  }

  /** A satisfying element with none after it is the one `LastWhere` finds. */
  lemma LastWhereIs<T>(s: seq<T>, p: T -> bool, i: nat)
    requires i < |s| && p(s[i])
    requires forall j :: i < j < |s| ==> !p(s[j])
    ensures LastWhere(s, p) == Some(i)
  {
  }

  /** A satisfying element with none before it is the one `FirstWhere` finds. */
  lemma FirstWhereIs<T>(s: seq<T>, p: T -> bool, i: nat)
    requires i < |s| && p(s[i])
    requires forall j :: 0 <= j < i ==> !p(s[j])
    ensures FirstWhere(s, p) == Some(i)
  {
  }

  /** The index of the last row whose id reads as `id`, scanning the whole range. */
  function LastMatch(rows: seq<Row>, id: string): (k: Option<nat>)
    ensures k.Some? ==> k.value < |rows| && IdMatches(rows[k.value], id)
    ensures k.Some? ==> forall j :: k.value < j < |rows| ==> !IdMatches(rows[j], id)
    ensures k.None? ==> forall j :: 0 <= j < |rows| ==> !IdMatches(rows[j], id)
  {
    LastWhere(rows, (row: Row) => IdMatches(row, id))
  }

  /** The index of the first row whose id reads as `id`, scanning the whole range. */
  function FirstMatch(rows: seq<Row>, id: string): (k: Option<nat>)
    ensures k.Some? ==> k.value < |rows| && IdMatches(rows[k.value], id)
    ensures k.Some? ==> forall j :: 0 <= j < k.value ==> !IdMatches(rows[j], id)
    ensures k.None? ==> forall j :: 0 <= j < |rows| ==> !IdMatches(rows[j], id)
  {
    FirstWhere(rows, (row: Row) => IdMatches(row, id))
  }

  /** The sequence without its element at `k`. */
  function RemoveAt(rows: seq<Row>, k: nat): (r: seq<Row>)
    requires k < |rows|
    ensures |r| == |rows| - 1
    ensures forall j :: 0 <= j < k ==> r[j] == rows[j]
    ensures forall j :: k <= j < |r| ==> r[j] == rows[j + 1]
  {
    rows[..k] + rows[k + 1..]
  }

  /** The row after `update`: columns C and D replaced, everything else kept. */
  function Retitled(row: Row, title: string, description: string): Row {
    row.(title := Text(title), description := Text(description))
  }

  /** The image column as `doGet` serves it: URLs as they are, other non-empty text as base64 JPEG data. */
  function ServedImage(image: Cell): (url: string)
    ensures url == "" <==> CellString(image) == ""
    ensures Strings.StartsWith(CellString(image), "http") ==> url == CellString(image)
    ensures !Strings.StartsWith(CellString(image), "http") && CellString(image) != "" ==> url == Base64Prefix + CellString(image)
    ensures url != "" ==> Strings.StartsWith(url, "http") || Strings.StartsWith(url, Base64Prefix)
  {
    var text := CellString(image);
    if Strings.StartsWith(text, "http") then text
    else if |text| > 0 then Base64Prefix + text
    else ""
  }

  function ToRecord(row: Row): Record {
    Record(row.id, row.date, row.title, row.description, ServedImage(row.image), row.rotation, row.swayClass)
  }

  /** The records `doGet` produces from a run of rows: one per row with a truthy id, in row order. */
  function Records(rows: seq<Row>): (r: seq<Record>)
    ensures |r| <= |rows|
    ensures forall x :: x in r ==> Truthy(x.id)
  {
    if rows == [] then []
    else
      var last := rows[|rows| - 1];
      Records(rows[..|rows| - 1]) + (if Truthy(last.id) then [ToRecord(last)] else [])
  }

  /** The rows below the header row. */
  function DataRows(rows: seq<Row>): seq<Row> {
    if rows == [] then [] else rows[1..]
  }

  /** One more row adds its record, when its id is truthy, at the end. */
  lemma RecordsSnoc(rows: seq<Row>, row: Row)
    ensures Records(rows + [row]) == Records(rows) + (if Truthy(row.id) then [ToRecord(row)] else [])
  {
    assert (rows + [row])[..|rows|] == rows;
  }

  /** One pass of the `doGet` loop extends the records of the rows seen so far by the record of row `i`. */
  lemma DoGetStep(all: seq<Row>, i: nat)
    requires 1 <= i < |all|
    ensures Records(all[1..i + 1]) == Records(all[1..i]) + (if Truthy(all[i].id) then [ToRecord(all[i])] else [])
  {
    assert all[1..i + 1] == all[1..i] + [all[i]];
    RecordsSnoc(all[1..i], all[i]);
  }

  /** `doGet` output follows row order: it distributes over any split of the rows. */
  lemma {:induction false} RecordsConcat(a: seq<Row>, b: seq<Row>)
    ensures Records(a + b) == Records(a) + Records(b)
    decreases |b|
  {
    if b == [] {
      assert a + b == a;
    } else {
      var b' := b[..|b| - 1];
      assert (a + b)[..|a + b| - 1] == a + b';
      assert (a + b)[|a + b| - 1] == b[|b| - 1];
      RecordsConcat(a, b');
    }
  }

  /** Every row with a truthy id is served, and nothing else is. */
  lemma {:induction false} RecordsFromRows(rows: seq<Row>, x: Record)
    ensures x in Records(rows) <==> exists row :: row in rows && Truthy(row.id) && ToRecord(row) == x
    decreases |rows|
  {
    if rows != [] {
      var init := rows[..|rows| - 1];
      RecordsFromRows(init, x);
      assert rows == init + [rows[|rows| - 1]];
    }
  }

  /** Deleting the id of the row just appended finds that row and takes the sheet back to what it was. */
  lemma DeleteUndoesCreate(rows: seq<Row>, m: Api.NewMemory, fileId: string)
    ensures LastMatch(rows + [NewRow(m, fileId)], m.id) == Some(|rows|)
    ensures RemoveAt(rows + [NewRow(m, fileId)], |rows|) == rows
  {
    assert (rows + [NewRow(m, fileId)])[..|rows|] == rows;
  }

  /** What the image URL check needs to know about the thumbnail prefix. */
  lemma ThumbnailPrefixShape()
    ensures |ThumbnailPrefix| > 20 && ThumbnailPrefix[..4] == "http"
    ensures ThumbnailPrefix[|ThumbnailPrefix| - 1] == '=' && '=' !in "undefined"
    ensures !Strings.Contains(ThumbnailPrefix, "undefined")
  {
    assert 'f' in "undefined" && 'f' !in ThumbnailPrefix;
    Strings.MissingCharNotContained(ThumbnailPrefix, "undefined", 'f');
  }

  /**
   * The thumbnail URL `create` stores is served as it is and passes the client's image
   * check, unless the Drive file id itself contains "undefined".
   */
  lemma CreatedImagePassesClientCheck(m: Api.NewMemory, fileId: string)
    requires !Strings.Contains(fileId, "undefined")
    ensures ServedImage(NewRow(m, fileId).image) == ThumbnailPrefix + fileId
    ensures Api.HasValidImage(ServedImage(NewRow(m, fileId).image))
  {
    ThumbnailPrefixShape();
    var url := ThumbnailPrefix + fileId;
    assert url[..4] == ThumbnailPrefix[..4];
    assert Strings.StartsWith(url, "http");
    Strings.NotContainedAcrossSeparator(ThumbnailPrefix, fileId, "undefined");
  }

  /** The spreadsheet's active sheet, with its full data range as a sequence of rows. */
  class Sheet {
    var rows: seq<Row>

    constructor (rows: seq<Row>)
      ensures this.rows == rows
    {
      this.rows := rows;
    }

    /** `doPost` with action 'create': after Drive stores the image, appends exactly one row. */
    method Create(m: Api.NewMemory, fileId: Option<string>) returns (status: Status)
      modifies this
      ensures status == Success <==> fileId.Some?
      ensures fileId.Some? ==> rows == old(rows) + [NewRow(m, fileId.value)]
      ensures fileId.None? ==> rows == old(rows)
    {
      if fileId.None? {
        return Error;
      }
      var fileUrl := ThumbnailPrefix + fileId.value;
      rows := rows + [Row(Text(m.id), Text(m.date), Text(m.title), Text(m.description),
                          Text(fileUrl), Number(m.rotation.GetOr(0)), Text(m.swayClass.GetOr("")))];
      return Success;
    }

    /** `doPost` with action 'delete': scans upward from the bottom and deletes the first match it meets. */
    method Delete(id: string) returns (status: Status)
      modifies this
      ensures status == Success <==> LastMatch(old(rows), id).Some?
      ensures LastMatch(old(rows), id).Some? ==> rows == RemoveAt(old(rows), LastMatch(old(rows), id).value)
      ensures LastMatch(old(rows), id).None? ==> rows == old(rows)
    {
      var all := rows;
      var i := |all| - 1;
      while i >= 0
        invariant -1 <= i < |all|
        invariant rows == all
        invariant forall j :: i < j < |all| ==> !IdMatches(all[j], id)
      {
        if IdMatches(all[i], id) {
          LastWhereIs(all, (row: Row) => IdMatches(row, id), i);
          rows := RemoveAt(all, i);
          return Success;
        }
        i := i - 1;
      }
      assert LastMatch(all, id).None?;
      return Error;
    }

    /** `doPost` with action 'update': rewrites title and description of the first matching row. */
    method Update(id: string, title: string, description: string) returns (status: Status)
      modifies this
      ensures status == Success <==> FirstMatch(old(rows), id).Some?
      ensures FirstMatch(old(rows), id).Some? ==>
        var k := FirstMatch(old(rows), id).value;
        rows == old(rows)[k := Retitled(old(rows)[k], title, description)]
      ensures FirstMatch(old(rows), id).None? ==> rows == old(rows)
    {
      var all := rows;
      var i := 0;
      while i < |all|
        invariant 0 <= i <= |all|
        invariant rows == all
        invariant forall j :: 0 <= j < i ==> !IdMatches(all[j], id)
      {
        if IdMatches(all[i], id) {
          FirstWhereIs(all, (row: Row) => IdMatches(row, id), i);
          rows := all[i := all[i].(title := Text(title), description := Text(description))];
          return Success;
        }
        i := i + 1;
      }
      assert FirstMatch(all, id).None?;
      return Error;
    }

    /** `doPost`: dispatches on the body's action. `fileId` is Drive's answer to storing a created image. */
    method DoPost(body: Api.PostBody, fileId: Option<string>) returns (status: Status)
      modifies this
      ensures body.CreateBody? ==>
        (status == Success <==> fileId.Some?) &&
        rows == if fileId.Some? then old(rows) + [NewRow(body.memory, fileId.value)] else old(rows)
      ensures body.DeleteBody? ==>
        var k := LastMatch(old(rows), body.id);
        (status == Success <==> k.Some?) &&
        rows == if k.Some? then RemoveAt(old(rows), k.value) else old(rows)
      ensures body.UpdateBody? ==>
        var k := FirstMatch(old(rows), body.id);
        (status == Success <==> k.Some?) &&
        rows == if k.Some? then old(rows)[k.value := Retitled(old(rows)[k.value], body.title, body.description)] else old(rows)
    {
      match body
      case CreateBody(m) => status := Create(m, fileId);
      case DeleteBody(id) => status := Delete(id);
      case UpdateBody(id, title, description) => status := Update(id, title, description);
    }

    /** `doGet`: every row below the header whose id is truthy, in row order, with the image column normalised. */
    method DoGet() returns (result: seq<Record>)
      ensures result == Records(DataRows(rows))
    {
      var all := rows;
      result := [];
      if |all| == 0 {
        return;
      }
      var i := 1;
      while i < |all|
        invariant 1 <= i <= |all|
        invariant result == Records(all[1..i])
      {
        var row := all[i];
        DoGetStep(all, i);
        if Truthy(row.id) {
          var img := CellString(row.image);
          var finalImg := "";
          if Strings.StartsWith(img, "http") {
            finalImg := img;
          } else if |img| > 0 {
            finalImg := Base64Prefix + img;
          }
          result := result + [Record(row.id, row.date, row.title, row.description, finalImg, row.rotation, row.swayClass)];
        }
        i := i + 1;
      }
      assert all[1..i] == all[1..];
    }
  }
}
