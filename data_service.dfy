/**
 * Ingestion of the spreadsheet exports: identifier normalisation, the
 * line-and-comma CSV reader, and the mappings from parsed rows to delivery
 * task groups, attendance records and directory users. The rows come in as
 * values; fetching them over the network is not part of this model.
 */
module DataService {
  import opened Wrappers
  import opened Text
  import opened Types

  // =====================================================================
  // normalizeId
  // =====================================================================

  /** `s[i..j+1]` is a match of `/\[(\d+)\]/`: a `[`, one or more decimal digits, a `]`. */
  predicate BracketGroupAt(s: string, i: int, j: int) {
    0 <= i && i + 1 < j < |s| && s[i] == '[' && s[j] == ']' && AllDigitsIn(s[i + 1..j], 10)
  }

  /** The leftmost match starts at `i`: no match starts earlier. */
  ghost predicate IsFirstGroup(s: string, i: int, j: int) {
    BracketGroupAt(s, i, j) && forall i', j' :: 0 <= i' < i ==> !BracketGroupAt(s, i', j')
  }

  /** The end of the match starting at `i`, or -1 when none starts there. */
  function GroupEndAt(s: string, i: nat): (j: int)
    ensures j >= 0 ==> BracketGroupAt(s, i, j)
    ensures j < 0 ==> forall j' :: !BracketGroupAt(s, i, j')
  {
    if i < |s| && s[i] == '[' then
      var ds := LeadingDigits(s[i + 1..], 10);
      var j := i + 1 + |ds|;
      assert ds == s[i + 1..j];
      if |ds| > 0 && j < |s| && s[j] == ']' then j
      else
        assert forall j' :: !BracketGroupAt(s, i, j') by {
          forall j': int ensures !BracketGroupAt(s, i, j') {
            if i + 1 < j' < j {
              assert s[j'] == ds[j' - i - 1];
            } else if j < j' < |s| {
              assert s[i + 1..j'][j - i - 1] == s[j];
            }
          }
        }
        -1
    else -1
  }

  /** The leftmost match at or after `from`, as the positions of its brackets. */
  function FindGroup(s: string, from: nat): (r: Option<(int, int)>)
    ensures r.Some? ==> from <= r.value.0 && BracketGroupAt(s, r.value.0, r.value.1)
    ensures r.Some? ==> forall i', j' :: from <= i' < r.value.0 ==> !BracketGroupAt(s, i', j')
    ensures r.None? ==> forall i', j' :: from <= i' ==> !BracketGroupAt(s, i', j')
    decreases |s| - from
  {
    if from >= |s| then None
    else
      var j := GroupEndAt(s, from);
      if j >= 0 then Some((from, j)) else FindGroup(s, from + 1)
  }

  /** The digits of the first `[digits]` group of `s`, or `s` itself when it has none. */
  function GroupDigitsOr(s: string): (r: string)
    ensures || (exists i, j :: IsFirstGroup(s, i, j) && r == s[i + 1..j])
            || ((forall i, j :: !BracketGroupAt(s, i, j)) && r == s)
  {
    var g := FindGroup(s, 0);
    if g.Some? then
      assert IsFirstGroup(s, g.value.0, g.value.1);
      s[g.value.0 + 1..g.value.1]
    else s
  }

  /**
   * `normalizeId(id)`: `""` for a missing id; otherwise the digits of the
   * first `[digits]` group of the trimmed id, or the trimmed id itself when
   * it has no such group.
   */
  function NormalizeId(id: Option<string>): (r: string)
    ensures id.None? ==> r == ""
    ensures id.Some? ==>
              var s := Trim(id.value);
              || (exists i, j :: IsFirstGroup(s, i, j) && r == s[i + 1..j])
              || ((forall i, j :: !BracketGroupAt(s, i, j)) && r == s)
  {
    match id
    case None => ""
    case Some(raw) => GroupDigitsOr(Trim(raw))
  }

  /** An id that is its own trim and holds no `[digits]` group normalises to itself. */
  lemma NormalizeIdOfClean(s: string)
    requires Trim(s) == s
    requires forall i, j :: !BracketGroupAt(s, i, j)
    ensures NormalizeId(Some(s)) == s
  {
  }

  /** The digits of a `[digits]` group are their own trim and hold no group. */
  lemma DigitsAreClean(r: string)
    requires AllDigitsIn(r, 10)
    ensures Trim(r) == r
    ensures forall i, j :: !BracketGroupAt(r, i, j)
  {
    assert forall k :: 0 <= k < |r| ==> !IsSpace(r[k]) && r[k] != '[';
    TrimOfTrimmed(r);
  }

  /** What `GroupDigitsOr` keeps of a string with a group is a string of digits. */
  lemma GroupDigitsOrFound(s: string)
    requires FindGroup(s, 0).Some?
    ensures AllDigitsIn(GroupDigitsOr(s), 10)
  {
    var g := FindGroup(s, 0);
    assert BracketGroupAt(s, g.value.0, g.value.1);
  }

  /** Normalising an already normalised id changes nothing. */
  lemma NormalizeIdIdempotent(id: Option<string>)
    ensures NormalizeId(Some(NormalizeId(id))) == NormalizeId(id)
  {
    var r := NormalizeId(id);
    match id
    case None =>
      TrimOfTrimmed(r);
    case Some(raw) =>
      if FindGroup(Trim(raw), 0).Some? {
        GroupDigitsOrFound(Trim(raw));
        DigitsAreClean(r);
      } else {
        TrimIdempotent(raw);
      }
    NormalizeIdOfClean(r);
  }

  // =====================================================================
  // parseCSV
  // =====================================================================

  /** One parsed CSV line: its header-keyed fields and the cleaned values in column order (`_raw`). */
  datatype Row = Row(fields: map<string, string>, raw: seq<string>)

  /**
   * A header or value as the reader cleans it: trimmed, then every `"`
   * removed, the other characters kept in order (see `Text.RemoveCharAppend`).
   */
  function CleanField(s: string): (r: string)
    ensures '"' !in r
    ensures forall x :: x != '"' ==> (x in r <==> x in Trim(s))
    ensures '"' !in Trim(s) ==> r == Trim(s)
  {
    RemoveChar(Trim(s), '"')
  }

  /** A quoted cell with whitespace around it cleans to the text between the quotes. */
  lemma CleanQuoted(before: string, v: string, after: string)
    requires AllSpace(before) && AllSpace(after) && '"' !in v
    ensures CleanField(before + ['"'] + v + ['"'] + after) == v
  {
    var q := ['"'] + v + ['"'];
    assert before + ['"'] + v + ['"'] + after == before + q + after;
    TrimPadded(before, q, after);
    RemoveCharAppend(['"'] + v, ['"'], '"');
    RemoveCharAppend(['"'], v, '"');
  }

  /** The cleaned comma-separated cells of one line (no quoting rules apply). */
  function CleanFields(line: string): seq<string> {
    var cells := Split(line, ',');
    seq(|cells|, k requires 0 <= k < |cells| => CleanField(cells[k]))
  }

  /** `line.trim() === ''`, stated as "all whitespace" (see `Text.TrimEmptyIffAllSpace`). */
  predicate IsBlank(line: string) {
    AllSpace(line)
  }

  /** The lines that are not blank, in order. */
  function NonBlank(lines: seq<string>): (r: seq<string>)
    ensures |r| <= |lines|
    ensures forall k :: 0 <= k < |r| ==> !IsBlank(r[k])
  {
    if |lines| == 0 then []
    else
      var init := lines[..|lines| - 1];
      var last := lines[|lines| - 1];
      NonBlank(init) + (if IsBlank(last) then [] else [last])
  }

  /**
   * `filter` keeps order and multiplicity: the kept lines of two stretches
   * are the kept lines of each, in turn (`NonBlankSingle` gives one line).
   */
  lemma {:induction false} NonBlankAppend(a: seq<string>, b: seq<string>)
    ensures NonBlank(a + b) == NonBlank(a) + NonBlank(b)
    decreases |b|
  {
    if |b| > 0 {
      var init := b[..|b| - 1];
      var ab := a + b;
      assert ab[..|ab| - 1] == a + init;
      assert ab[|ab| - 1] == b[|b| - 1];
      NonBlankAppend(a, init);
    } else {
      assert a + b == a;
    }
  }

  /** A single line is kept exactly when it is not blank. */
  lemma NonBlankSingle(l: string)
    ensures NonBlank([l]) == if IsBlank(l) then [] else [l]
  {
    assert [l][..0] == [];
  }

  /** The kept lines are exactly the lines that are not blank. */
  lemma {:induction false} NonBlankMembers(lines: seq<string>)
    ensures forall l :: l in NonBlank(lines) <==> l in lines && !IsBlank(l)
  {
    if |lines| > 0 {
      var init := lines[..|lines| - 1];
      assert lines == init + [lines[|lines| - 1]];
      NonBlankMembers(init);
    }
  }

  /** The lines of a CSV text; `split` always yields at least one, the header line. */
  function Lines(csv: string): (r: seq<string>)
    ensures |r| >= 1
  {
    Split(csv, '\n')
  }

  function HeaderNames(csv: string): seq<string> {
    CleanFields(Lines(csv)[0])
  }

  /** The non-blank lines after the header: one record each. */
  function DataLines(csv: string): seq<string> {
    NonBlank(Lines(csv)[1..])
  }

  /** `values[i] || ''`: the value in column `i`, or `""` past the end of the line. */
  function ValueAt(values: seq<string>, i: nat): string {
    if i < |values| then values[i] else ""
  }

  /** No later header repeats `h[i]`: column `i` is the one whose value a repeated key keeps. */
  predicate LastOccurrence(h: seq<string>, i: int) {
    0 <= i < |h| && forall j :: i < j < |h| ==> h[j] != h[i]
  }

  /** `obj` is what assigning `obj[h[i]] = values[i] || ''` for each header in turn produces. */
  ghost predicate IsRecordOf(h: seq<string>, values: seq<string>, obj: map<string, string>) {
    && (forall k :: k in obj <==> k in h)
    && (forall i :: LastOccurrence(h, i) ==> obj[h[i]] == ValueAt(values, i))
  }

  /** The record of a line once `_raw` has taken over the key of that name. */
  ghost predicate IsRowOf(h: seq<string>, values: seq<string>, fields: map<string, string>) {
    && (forall k :: k in fields <==> k in h && k != "_raw")
    && (forall i :: LastOccurrence(h, i) && h[i] != "_raw" ==> fields[h[i]] == ValueAt(values, i))
  }

  /** The `headers.forEach` that fills one record. */
  method BuildRecord(headers: seq<string>, values: seq<string>) returns (obj: map<string, string>)
    ensures IsRecordOf(headers, values, obj)
  {
    obj := map[];
    var i := 0;
    while i < |headers|
      invariant 0 <= i <= |headers|
      invariant IsRecordOf(headers[..i], values, obj)
    {
      assert headers[..i + 1] == headers[..i] + [headers[i]];
      RecordStep(headers[..i], headers[i], values, obj);
      obj := obj[headers[i] := ValueAt(values, i)];
      i := i + 1;
    }
    assert headers[..i] == headers;
  }

  /** Assigning the next header's value extends the record by that header. */
  lemma RecordStep(prev: seq<string>, x: string, values: seq<string>, obj: map<string, string>)
    requires IsRecordOf(prev, values, obj)
    ensures IsRecordOf(prev + [x], values, obj[x := ValueAt(values, |prev|)])
  {
    var h := prev + [x];
    var next := obj[x := ValueAt(values, |prev|)];
    forall j | LastOccurrence(h, j)
      ensures next[h[j]] == ValueAt(values, j)
    {
      if j < |prev| {
        assert h[|prev|] == x;
        assert forall k :: 0 <= k < |prev| ==> h[k] == prev[k];
      }
    }
  }

  /**
   * `parseCSV(csv)`: one row per non-blank line after the header line; each
   * row keeps the cleaned values of its line and maps every header to the
   * value in the same column (`""` when the line is shorter).
   */
  method ParseCsv(csv: string) returns (rows: seq<Row>)
    ensures |rows| == |DataLines(csv)|
    ensures forall k :: 0 <= k < |rows| ==> rows[k].raw == CleanFields(DataLines(csv)[k])
    ensures forall k :: 0 <= k < |rows| ==> IsRowOf(HeaderNames(csv), rows[k].raw, rows[k].fields)
  {
    var lines := Lines(csv);
    // `lines.length === 0` cannot hold: splitting always yields the header line.
    var headers := CleanFields(lines[0]);
    rows := ParseRecords(headers, lines[1..]);
  }

  /** The `for` over the lines after the header: a row for each non-blank line. */
  method ParseRecords(headers: seq<string>, lines: seq<string>) returns (rows: seq<Row>)
    ensures |rows| == |NonBlank(lines)|
    ensures forall k :: 0 <= k < |rows| ==> rows[k].raw == CleanFields(NonBlank(lines)[k])
    ensures forall k :: 0 <= k < |rows| ==> IsRowOf(headers, rows[k].raw, rows[k].fields)
  {
    rows := [];
    var j := 0;
    ghost var done: seq<string> := [];
    while j < |lines|
      invariant 0 <= j <= |lines|
      invariant done == NonBlank(lines[..j])
      invariant |rows| == |done|
      invariant forall k :: 0 <= k < |rows| ==> rows[k].raw == CleanFields(done[k])
      invariant forall k :: 0 <= k < |rows| ==> IsRowOf(headers, rows[k].raw, rows[k].fields)
    {
      assert lines[..j + 1][..j] == lines[..j];
      if !IsBlank(lines[j]) {
        var row := ParseRecord(headers, lines[j]);
        rows := rows + [row];
        done := done + [lines[j]];
      }
      j := j + 1;
    }
    assert lines[..j] == lines;
  }

  /** One line's row: its cleaned values, and the record with `_raw` set to those values. */
  method ParseRecord(headers: seq<string>, line: string) returns (row: Row)
    ensures row.raw == CleanFields(line)
    ensures IsRowOf(headers, row.raw, row.fields)
  {
    var values := CleanFields(line);
    var obj := BuildRecord(headers, values);
    RecordWithoutRaw(headers, values, obj);
    row := Row(obj - {"_raw"}, values);
  }

  /** Dropping the `_raw` key from a record gives the fields of the row. */
  lemma RecordWithoutRaw(h: seq<string>, values: seq<string>, obj: map<string, string>)
    requires IsRecordOf(h, values, obj)
    ensures IsRowOf(h, values, obj - {"_raw"})
  {
  }

  // =====================================================================
  // Reading a row: `d['Key'] || d.Other || d._raw[i] || 'default'`
  // =====================================================================

  /** `d[key]`: `None` when the header row has no such column. */
  function Field(row: Row, key: string): Option<string> {
    if key in row.fields then Some(row.fields[key]) else None
  }

  /** `d._raw[i]`: `None` past the end of the line. */
  function RawAt(row: Row, i: nat): Option<string> {
    if i < |row.raw| then Some(row.raw[i]) else None
  }

  /** A JavaScript truthy string: present and not empty. */
  predicate Truthy(o: Option<string>) {
    o.Some? && o.value != ""
  }

  /** `a || b || … || fallback`: the first truthy option, or `fallback` when none is. */
  function Pick(options: seq<Option<string>>, fallback: string): string {
    if |options| == 0 then fallback
    else if Truthy(options[0]) then options[0].value
    else Pick(options[1..], fallback)
  }

  /** `Pick` yields the first truthy option's string, and the fallback exactly when no option is truthy. */
  lemma {:induction false} PickFirstTruthy(options: seq<Option<string>>, fallback: string)
    ensures (forall k :: 0 <= k < |options| ==> !Truthy(options[k])) ==> Pick(options, fallback) == fallback
    ensures forall k :: (0 <= k < |options| && Truthy(options[k]) && forall j :: 0 <= j < k ==> !Truthy(options[j]))
                        ==> Pick(options, fallback) == options[k].value
  {
    if |options| > 0 && !Truthy(options[0]) {
      PickFirstTruthy(options[1..], fallback);
      assert forall k :: 1 <= k < |options| ==> options[1..][k - 1] == options[k];
    }
  }

  /** `o || fallback` and `o || p || fallback` read off directly. */
  lemma PickShort(o: Option<string>, p: Option<string>, fallback: string)
    ensures Pick([o], fallback) == if Truthy(o) then o.value else fallback
    ensures Pick([o, p], fallback) == if Truthy(o) then o.value else if Truthy(p) then p.value else fallback
  {
    assert [o][1..] == [];
    assert [o, p][1..] == [p];
    assert [p][1..] == [];
  }

  // =====================================================================
  // getTasks
  // =====================================================================

  /** `parseInt` of the package-count column. */
  function PackageCountOf(row: Row): Option<int> {
    ParseInt(Pick([Field(row, "Jumlah Paket"), Field(row, "PackageCount"), Field(row, "Package Count"), RawAt(row, 2)], "0"))
  }

  function TaskIdOf(row: Row): string {
    Trim(Pick([Field(row, "Task ID"), Field(row, "TaskID"), RawAt(row, 0)], ""))
  }

  /** The trimmed operator column. */
  function OperatorColumn(row: Row): string {
    Trim(Pick([Field(row, "Operator"), RawAt(row, 5)], ""))
  }

  /**
   * `rawOp.split(']')[1].trim()` when `rawOp` holds a `]`: the trimmed text
   * between the first `]` and the next one (or the end); `rawOp` itself
   * otherwise.
   */
  function OperatorName(rawOp: string): (r: string)
    ensures ']' !in rawOp ==> r == rawOp
    ensures ']' in rawOp ==>
              var rest := rawOp[IndexOf(rawOp, ']') + 1..];
              r == Trim(rest[..IndexOf(rest, ']')])
  {
    if ']' in rawOp then
      var rest := rawOp[IndexOf(rawOp, ']') + 1..];
      SplitRest(rawOp, ']');
      SplitFirst(rest, ']');
      Trim(Split(rawOp, ']')[1])
    else rawOp
  }

  /** A `[id] Name` operator reads as the trimmed name. */
  lemma OperatorNameTagged(tag: string, name: string)
    requires ']' !in tag && ']' !in name
    ensures OperatorName(tag + "]" + name) == Trim(name)
  {
    var s := tag + "]" + name;
    assert s[|tag|] == ']';
    assert forall k :: 0 <= k < |tag| ==> s[k] == tag[k];
    assert IndexOf(s, ']') == |tag|;
    assert s[|tag| + 1..] == name;
    assert IndexOf(name, ']') == |name|;
  }

  /** The operator of a row: the name in its operator column. */
  function OperatorOf(row: Row): string {
    OperatorName(OperatorColumn(row))
  }

  /** The trimmed delivery-date column. */
  function DeliveryDateOf(row: Row): string {
    Trim(Pick([Field(row, "Delivery Date"), RawAt(row, 1)], ""))
  }

  /** The trimmed hub column, `Tompobulu Hub` when no hub column is filled. */
  function HubOf(row: Row): string {
    Trim(Pick([Field(row, "Station"), Field(row, "Hub"), RawAt(row, 3)], "Tompobulu Hub"))
  }

  /** The trimmed courier-name column, `Unknown` when no name column is filled. */
  function CourierNameOf(row: Row): string {
    Trim(Pick([Field(row, "Nama Kurir"), Field(row, "Nama kurir"), Field(row, "CourierName"), RawAt(row, 4)], "Unknown"))
  }

  /** The normalised courier id of the trimmed FMS-id column. */
  function ExtractedIdOf(row: Row): string {
    NormalizeId(Some(Trim(Pick([Field(row, "FMS ID"), Field(row, "Courier ID"), Field(row, "CourierID"), Field(row, "UserID"), RawAt(row, 1)], ""))))
  }

  /** A row with no hub column filled is at `Tompobulu Hub`. */
  lemma HubDefault(row: Row)
    requires !Truthy(Field(row, "Station")) && !Truthy(Field(row, "Hub")) && !Truthy(RawAt(row, 3))
    ensures HubOf(row) == "Tompobulu Hub"
  {
    PickFirstTruthy([Field(row, "Station"), Field(row, "Hub"), RawAt(row, 3)], "Tompobulu Hub");
    TrimOfTrimmed("Tompobulu Hub");
  }

  /** A row with no courier-name column filled belongs to `Unknown`. */
  lemma CourierNameDefault(row: Row)
    requires !Truthy(Field(row, "Nama Kurir")) && !Truthy(Field(row, "Nama kurir"))
    requires !Truthy(Field(row, "CourierName")) && !Truthy(RawAt(row, 4))
    ensures CourierNameOf(row) == "Unknown"
  {
    PickFirstTruthy([Field(row, "Nama Kurir"), Field(row, "Nama kurir"), Field(row, "CourierName"), RawAt(row, 4)], "Unknown");
    TrimOfTrimmed("Unknown");
  }

  /** What one accepted row contributes: its group key, the courier's id, name and hub, and its task. */
  datatype RowTask = RowTask(groupId: string, extractedId: string, courierName: string, hub: string, task: TaskItem)

  /**
   * The body of the `data.forEach` in `getTasks` up to the grouping: a row is
   * skipped when its package count is not a number or not positive, or its
   * task id is empty; otherwise its task is unscanned and is grouped under the
   * normalised courier id, or under the courier name when that id is empty.
   */
  function ExtractTask(row: Row): (r: Option<RowTask>)
    ensures r.None? <==> (PackageCountOf(row).None? || PackageCountOf(row).value <= 0 || TaskIdOf(row) == "")
    ensures r.Some? ==> && r.value.task.packageCount == PackageCountOf(row).value > 0
                        && r.value.task.taskId == TaskIdOf(row) != ""
                        && r.value.task.isScanned == Some(false)
                        && r.value.task.station == r.value.hub
                        && r.value.task.operator != ""
                        && r.value.groupId == (if r.value.extractedId != "" then r.value.extractedId else r.value.courierName)
    ensures r.Some? ==> && r.value.extractedId == ExtractedIdOf(row)
                        && r.value.courierName == CourierNameOf(row)
                        && r.value.hub == HubOf(row)
                        && r.value.task.deliveryDate == DeliveryDateOf(row)
                        && r.value.task.operator == (if OperatorOf(row) != "" then OperatorOf(row) else "Hub Staff")
  {
    var count := PackageCountOf(row);
    if count.None? || count.value <= 0 then None
    else
      var taskId := TaskIdOf(row);
      var deliveryDate := DeliveryDateOf(row);
      var hub := HubOf(row);
      var courierName := CourierNameOf(row);
      var extractedId := ExtractedIdOf(row);
      var operator := OperatorOf(row);
      if taskId == "" then None
      else
        var groupId := if extractedId != "" then extractedId else courierName;
        var task := TaskItem(taskId, count.value, deliveryDate, if operator != "" then operator else "Hub Staff", hub, Some(false));
        Some(RowTask(groupId, extractedId, courierName, hub, task))
  }

  /** `couriers.find(c => c.id === id || c.name === name)`. */
  function FindCourier(couriers: seq<User>, id: string, name: string): (r: Option<User>)
    ensures r.Some? ==> r.value in couriers && (r.value.id == id || r.value.name == name)
    ensures r.None? ==> forall c :: c in couriers ==> c.id != id && c.name != name
    ensures r.Some? ==> exists i :: 0 <= i < |couriers| && couriers[i] == r.value
                                    && forall j :: 0 <= j < i ==> couriers[j].id != id && couriers[j].name != name
  {
    if |couriers| == 0 then None
    else if couriers[0].id == id || couriers[0].name == name then Some(couriers[0])
    else
      var r := FindCourier(couriers[1..], id, name);
      assert forall j :: 1 <= j < |couriers| ==> couriers[j] == couriers[1..][j - 1];
      r
  }

  /** The group a key's first row opens: no tasks yet, role from the courier directory or `Kurir`. */
  function NewGroup(rt: RowTask, couriers: seq<User>): AssignTask {
    var role := match FindCourier(couriers, rt.extractedId, rt.courierName)
                case Some(c) => if c.role != "" then c.role else "Kurir"
                case None => "Kurir";
    AssignTask(if rt.extractedId != "" then rt.extractedId else "N/A", rt.courierName, role, 0, rt.hub, [])
  }

  /** What each row contributes, in row order: the stream the grouping consumes. */
  function TaskStream(rows: seq<Row>): (stream: seq<Option<RowTask>>)
    ensures |stream| == |rows|
    ensures forall i :: 0 <= i < |rows| ==> stream[i] == ExtractTask(rows[i])
  {
    seq(|rows|, i requires 0 <= i < |rows| => ExtractTask(rows[i]))
  }

  /** The task of an accepted row: positive package count, a task id, unscanned. */
  predicate ValidTask(t: TaskItem) {
    t.packageCount > 0 && t.taskId != "" && t.isScanned == Some(false)
  }

  /** Every row that `getTasks` accepts yields a valid task. */
  lemma TaskStreamValid(rows: seq<Row>)
    ensures forall o :: o in TaskStream(rows) && o.Some? ==> ValidTask(o.value.task)
  {
  }

  /** The stream entry feeds the group with key `k`. */
  predicate Feeds(o: Option<RowTask>, k: string) {
    o.Some? && o.value.groupId == k
  }

  /** The group keys in the order their first rows appear: the insertion order of `grouped`. */
  function AppearanceOrder(stream: seq<Option<RowTask>>): (r: seq<string>)
    ensures forall a, b :: 0 <= a < b < |r| ==> r[a] != r[b]
  {
    if |stream| == 0 then []
    else
      var prev := AppearanceOrder(stream[..|stream| - 1]);
      var last := stream[|stream| - 1];
      if last.Some? && last.value.groupId !in prev then prev + [last.value.groupId] else prev
  }

  /** A key is a group key exactly when some accepted row carries it. */
  lemma {:induction false} AppearanceOrderKeys(stream: seq<Option<RowTask>>, k: string)
    ensures k in AppearanceOrder(stream) <==> exists i :: 0 <= i < |stream| && Feeds(stream[i], k)
  {
    if |stream| > 0 {
      var init := stream[..|stream| - 1];
      AppearanceOrderKeys(init, k);
      if exists i :: 0 <= i < |stream| && Feeds(stream[i], k) {
        var i :| 0 <= i < |stream| && Feeds(stream[i], k);
        if i < |init| {
          assert Feeds(init[i], k);
        }
      }
      if exists i :: 0 <= i < |init| && Feeds(init[i], k) {
        var i :| 0 <= i < |init| && Feeds(init[i], k);
        assert Feeds(stream[i], k);
      }
    }
  }

  /** The tasks of the group with key `k`, in row order. */
  function TasksFor(stream: seq<Option<RowTask>>, k: string): seq<TaskItem> {
    if |stream| == 0 then []
    else
      var last := stream[|stream| - 1];
      TasksFor(stream[..|stream| - 1], k) + (if Feeds(last, k) then [last.value.task] else [])
  }

  /** The first row that feeds the group with key `k`. */
  function FirstFor(stream: seq<Option<RowTask>>, k: string): (r: Option<RowTask>)
    ensures r.Some? <==> k in AppearanceOrder(stream)
    ensures r.Some? ==> r.value.groupId == k
  {
    if |stream| == 0 then None
    else
      var prev := FirstFor(stream[..|stream| - 1], k);
      var last := stream[|stream| - 1];
      if prev.Some? then prev
      else if Feeds(last, k) then last
      else None
  }

  /** The sum of the package counts of some tasks. */
  function SumPackages(ts: seq<TaskItem>): int {
    if |ts| == 0 then 0 else SumPackages(ts[..|ts| - 1]) + ts[|ts| - 1].packageCount
  }

  /** A group after one more of its tasks: the task appended, its count added to the total. */
  function Absorb(g: AssignTask, t: TaskItem): AssignTask {
    g.(totalPackages := g.totalPackages + t.packageCount, tasks := g.tasks + [t])
  }

  /** The group with key `k` once every row has been seen. */
  function GroupOf(stream: seq<Option<RowTask>>, couriers: seq<User>, k: string): AssignTask
    requires k in AppearanceOrder(stream)
  {
    var ts := TasksFor(stream, k);
    NewGroup(FirstFor(stream, k).value, couriers).(totalPackages := SumPackages(ts), tasks := ts)
  }

  /** One more row either leaves the key order alone or appends the new key it feeds. */
  lemma AppearanceOrderStep(stream: seq<Option<RowTask>>, o: Option<RowTask>)
    ensures AppearanceOrder(stream + [o]) ==
            if o.Some? && o.value.groupId !in AppearanceOrder(stream) then AppearanceOrder(stream) + [o.value.groupId]
            else AppearanceOrder(stream)
  {
    assert (stream + [o])[..|stream|] == stream;
  }

  /**
   * One more row opens the group of a new key with its task, appends its task
   * to the group of a known key, and leaves every other group as it was.
   */
  lemma GroupStep(stream: seq<Option<RowTask>>, o: Option<RowTask>, couriers: seq<User>, k: string)
    requires k in AppearanceOrder(stream + [o])
    ensures k in AppearanceOrder(stream) && !Feeds(o, k) ==>
              GroupOf(stream + [o], couriers, k) == GroupOf(stream, couriers, k)
    ensures k in AppearanceOrder(stream) && Feeds(o, k) ==>
              GroupOf(stream + [o], couriers, k) == Absorb(GroupOf(stream, couriers, k), o.value.task)
    ensures k !in AppearanceOrder(stream) ==>
              && Feeds(o, k)
              && GroupOf(stream + [o], couriers, k) == Absorb(NewGroup(o.value, couriers), o.value.task)
  {
    AppearanceOrderStep(stream, o);
    if k !in AppearanceOrder(stream) {
      GroupStepNew(stream, o, couriers, k);
    } else {
      GroupStepKnown(stream, o, couriers, k);
    }
  }

  /** The row that brings a new key opens its group with its own task. */
  lemma GroupStepNew(stream: seq<Option<RowTask>>, o: Option<RowTask>, couriers: seq<User>, k: string)
    requires k in AppearanceOrder(stream + [o]) && k !in AppearanceOrder(stream)
    ensures Feeds(o, k)
    ensures GroupOf(stream + [o], couriers, k) == Absorb(NewGroup(o.value, couriers), o.value.task)
  {
    var s := stream + [o];
    assert s[..|stream|] == stream;
    AppearanceOrderStep(stream, o);
    assert FirstFor(stream, k).None?;
    TasksForUnfed(stream, k);
    var t := o.value.task;
    assert FirstFor(s, k) == o;
    assert TasksFor(s, k) == [t];
    assert [t][..0] == [];
    assert SumPackages([t]) == t.packageCount;
    assert NewGroup(o.value, couriers).tasks + [t] == [t];
  }

  /** A row for a known key appends its task to that group; any other row leaves it alone. */
  lemma GroupStepKnown(stream: seq<Option<RowTask>>, o: Option<RowTask>, couriers: seq<User>, k: string)
    requires k in AppearanceOrder(stream)
    ensures k in AppearanceOrder(stream + [o])
    ensures !Feeds(o, k) ==> GroupOf(stream + [o], couriers, k) == GroupOf(stream, couriers, k)
    ensures Feeds(o, k) ==> GroupOf(stream + [o], couriers, k) == Absorb(GroupOf(stream, couriers, k), o.value.task)
  {
    var s := stream + [o];
    assert s[..|stream|] == stream;
    AppearanceOrderStep(stream, o);
    assert FirstFor(s, k) == FirstFor(stream, k);
    var ts := TasksFor(stream, k);
    if Feeds(o, k) {
      assert TasksFor(s, k) == ts + [o.value.task];
      assert (ts + [o.value.task])[..|ts|] == ts;
    } else {
      assert TasksFor(s, k) == ts;
    }
  }

  /** A key no row feeds has no tasks. */
  lemma {:induction false} TasksForUnfed(stream: seq<Option<RowTask>>, k: string)
    requires k !in AppearanceOrder(stream)
    ensures TasksFor(stream, k) == []
  {
    if |stream| > 0 {
      var init := stream[..|stream| - 1];
      assert k !in AppearanceOrder(init);
      TasksForUnfed(init, k);
    }
  }

  /** A group collects only tasks of accepted rows. */
  lemma {:induction false} TasksForValid(stream: seq<Option<RowTask>>, k: string)
    requires forall o :: o in stream && o.Some? ==> ValidTask(o.value.task)
    ensures forall t :: t in TasksFor(stream, k) ==> ValidTask(t)
  {
    if |stream| > 0 {
      var init := stream[..|stream| - 1];
      assert forall o :: o in init ==> o in stream;
      TasksForValid(init, k);
    }
  }

  // ---------------------------------------------------------------------
  // The order of `Object.values(grouped)`
  // ---------------------------------------------------------------------

  /** A canonical decimal below 2^32 - 1: JavaScript treats such a key as an array index. */
  predicate IsArrayIndex(k: string) {
    |k| >= 1 && AllDigitsIn(k, 10) && (k[0] != '0' || |k| == 1) && DigitsValue(k, 10) < 4294967295
  }

  function IndexValue(k: string): nat
    requires IsArrayIndex(k)
  {
    DigitsValue(k, 10)
  }

  predicate SortedIndexKeys(ks: seq<string>) {
    && (forall a :: 0 <= a < |ks| ==> IsArrayIndex(ks[a]))
    && (forall a, b :: 0 <= a < b < |ks| ==> IndexValue(ks[a]) <= IndexValue(ks[b]))
  }

  /** Insert an array-index key before the first key of larger or equal value. */
  function InsertByValue(ks: seq<string>, k: string): (r: seq<string>)
    requires IsArrayIndex(k) && SortedIndexKeys(ks)
    ensures multiset(r) == multiset(ks) + multiset{k}
    ensures |r| == |ks| + 1
  {
    if |ks| == 0 || IndexValue(k) <= IndexValue(ks[0]) then [k] + ks
    else
      assert ks == [ks[0]] + ks[1..];
      [ks[0]] + InsertByValue(ks[1..], k)
  }

  /** A key no larger than any key of a sorted sequence can be put in front of it. */
  lemma ConsSorted(x: string, rest: seq<string>)
    requires IsArrayIndex(x) && SortedIndexKeys(rest)
    requires forall b :: 0 <= b < |rest| ==> IndexValue(x) <= IndexValue(rest[b])
    ensures SortedIndexKeys([x] + rest)
  {
    var r := [x] + rest;
    assert forall a :: 0 < a < |r| ==> r[a] == rest[a - 1];
  }

  /** A key below `k` and below every key of `tail` is below every key of `InsertByValue(tail, k)`. */
  lemma InsertedAboveHead(x: string, tail: seq<string>, k: string, rest: seq<string>)
    requires IsArrayIndex(x) && IsArrayIndex(k) && SortedIndexKeys(tail)
    requires IndexValue(x) < IndexValue(k)
    requires forall b :: 0 <= b < |tail| ==> IndexValue(x) <= IndexValue(tail[b])
    requires rest == InsertByValue(tail, k)
    ensures forall b :: 0 <= b < |rest| ==> IsArrayIndex(rest[b]) && IndexValue(x) <= IndexValue(rest[b])
  {
    forall b | 0 <= b < |rest|
      ensures IsArrayIndex(rest[b]) && IndexValue(x) <= IndexValue(rest[b])
    {
      assert rest[b] in multiset(rest);
      if rest[b] != k {
        assert rest[b] in multiset(tail);
        assert rest[b] in tail;
      }
    }
  }

  /** Inserting an array-index key keeps the keys sorted by value. */
  lemma {:induction false} InsertByValueSorted(ks: seq<string>, k: string)
    requires IsArrayIndex(k) && SortedIndexKeys(ks)
    ensures SortedIndexKeys(InsertByValue(ks, k))
  {
    if |ks| > 0 && IndexValue(ks[0]) < IndexValue(k) {
      var tail := ks[1..];
      assert SortedIndexKeys(tail) by {
        assert forall a :: 0 <= a < |tail| ==> tail[a] == ks[a + 1];
      }
      InsertByValueSorted(tail, k);
      forall b | 0 <= b < |tail| ensures IndexValue(ks[0]) <= IndexValue(tail[b]) {
        assert tail[b] == ks[b + 1];
      }
      var rest := InsertByValue(tail, k);
      InsertedAboveHead(ks[0], tail, k, rest);
      ConsSorted(ks[0], rest);
    } else {
      InsertedAtFront(ks, k);
    }
  }

  /** When `k` goes first, every key of `ks` is at least `k`. */
  lemma InsertedAtFront(ks: seq<string>, k: string)
    requires IsArrayIndex(k) && SortedIndexKeys(ks) && (|ks| == 0 || IndexValue(k) <= IndexValue(ks[0]))
    ensures SortedIndexKeys(InsertByValue(ks, k))
  {
    ConsSorted(k, ks);
  }

  /** The keys of `ks` that are (`index`) or are not (`!index`) array indices, in order. */
  function KeysWhere(ks: seq<string>, index: bool): (r: seq<string>)
    ensures forall a :: 0 <= a < |r| ==> IsArrayIndex(r[a]) == index
  {
    if |ks| == 0 then []
    else
      var last := ks[|ks| - 1];
      KeysWhere(ks[..|ks| - 1], index) + (if IsArrayIndex(last) == index then [last] else [])
  }

  /** The array-index keys of `ks`, in ascending numeric order. */
  function SortIndexKeys(ks: seq<string>): (r: seq<string>)
    requires forall a :: 0 <= a < |ks| ==> IsArrayIndex(ks[a])
    ensures SortedIndexKeys(r)
    ensures multiset(r) == multiset(ks)
  {
    if |ks| == 0 then []
    else
      var init := ks[..|ks| - 1];
      assert ks == init + [ks[|ks| - 1]];
      InsertByValueSorted(SortIndexKeys(init), ks[|ks| - 1]);
      InsertByValue(SortIndexKeys(init), ks[|ks| - 1])
  }

  /**
   * The key order JavaScript gives an object whose string keys were inserted
   * in the order `insertion`: array-index keys first, ascending, then the other
   * keys in insertion order.
   */
  function ObjectKeys(insertion: seq<string>): seq<string> {
    SortIndexKeys(KeysWhere(insertion, true)) + KeysWhere(insertion, false)
  }

  lemma {:induction false} KeysWhereSplit(ks: seq<string>)
    ensures multiset(KeysWhere(ks, true)) + multiset(KeysWhere(ks, false)) == multiset(ks)
  {
    if |ks| > 0 {
      KeysWhereSplit(ks[..|ks| - 1]);
      assert ks == ks[..|ks| - 1] + [ks[|ks| - 1]];
    }
  }

  /**
   * `Object.values` visits every key exactly as often as it was inserted:
   * array-index keys first in ascending order, the other keys after them in
   * insertion order.
   */
  lemma ObjectKeysOrder(insertion: seq<string>)
    ensures multiset(ObjectKeys(insertion)) == multiset(insertion)
    ensures var keys := ObjectKeys(insertion);
            var n := |KeysWhere(insertion, true)|;
            && n <= |keys|
            && SortedIndexKeys(keys[..n])
            && keys[n..] == KeysWhere(insertion, false)
  {
    KeysWhereSplit(insertion);
    var keys := ObjectKeys(insertion);
    var n := |KeysWhere(insertion, true)|;
    var sorted := SortIndexKeys(KeysWhere(insertion, true));
    assert |sorted| == n by {
      assert |multiset(sorted)| == |multiset(KeysWhere(insertion, true))|;
    }
    assert keys[..n] == sorted;
  }

  /**
   * The grouping half of the `data.forEach` in `getTasks`: a row's task opens
   * the group of a key not seen before, and is appended to its group, whose
   * total grows by its package count.
   */
  method GroupStream(stream: seq<Option<RowTask>>, couriers: seq<User>)
    returns (grouped: map<string, AssignTask>, insertion: seq<string>)
    ensures insertion == AppearanceOrder(stream)
    ensures forall k :: k in grouped <==> k in insertion
    ensures forall k :: k in grouped ==> grouped[k] == GroupOf(stream, couriers, k)
  {
    grouped := map[];
    insertion := [];
    var i := 0;
    while i < |stream|
      invariant 0 <= i <= |stream|
      invariant insertion == AppearanceOrder(stream[..i])
      invariant forall k :: k in grouped <==> k in insertion
      invariant forall k :: k in grouped ==> grouped[k] == GroupOf(stream[..i], couriers, k)
    {
      ghost var prev := stream[..i];
      ghost var grouped0 := grouped;
      var rt := stream[i];
      assert stream[..i + 1] == prev + [rt];
      AppearanceOrderStep(prev, rt);
      if rt.Some? {
        var k := rt.value.groupId;
        if k !in grouped {
          grouped := grouped[k := NewGroup(rt.value, couriers)];
          insertion := insertion + [k];
        }
        grouped := grouped[k := Absorb(grouped[k], rt.value.task)];
      }
      forall k | k in grouped
        ensures grouped[k] == GroupOf(prev + [rt], couriers, k)
      {
        GroupStep(prev, rt, couriers, k);
        if !(rt.Some? && k == rt.value.groupId) {
          assert grouped[k] == grouped0[k];
        }
      }
      i := i + 1;
    }
    assert stream[..i] == stream;
  }

  /** As many keys as insertions, each of them an inserted key. */
  lemma ObjectKeysFromInsertion(insertion: seq<string>)
    ensures |ObjectKeys(insertion)| == |insertion|
    ensures forall j :: 0 <= j < |insertion| ==> ObjectKeys(insertion)[j] in insertion
  {
    var keys := ObjectKeys(insertion);
    ObjectKeysOrder(insertion);
    assert |keys| == |insertion| by {
      assert |multiset(keys)| == |multiset(insertion)|;
    }
    forall j | 0 <= j < |insertion|
      ensures keys[j] in insertion
    {
      assert keys[j] in multiset(keys);
    }
  }

  /**
   * `getTasks(couriers)` on already parsed rows: one group per key that an
   * accepted row feeds, in JavaScript's object-key order; each group carries
   * its first row's courier and hub, and all its tasks in row order.
   */
  method GetTasks(rows: seq<Row>, couriers: seq<User>) returns (groups: seq<AssignTask>)
    ensures var order := AppearanceOrder(TaskStream(rows));
            var keys := ObjectKeys(order);
            && |groups| == |keys| == |order|
            && forall j :: 0 <= j < |groups| ==> keys[j] in order && groups[j] == GroupOf(TaskStream(rows), couriers, keys[j])
  {
    var grouped, insertion := GroupStream(TaskStream(rows), couriers);
    groups := ObjectValues(grouped, insertion);
  }

  /**
   * `Object.values(obj)` for an object whose keys were inserted in the order
   * `insertion`: one value per key, visited in JavaScript's key order.
   */
  function ObjectValues<V>(obj: map<string, V>, insertion: seq<string>): (vs: seq<V>)
    requires forall k :: k in obj <==> k in insertion
    ensures |vs| == |ObjectKeys(insertion)| == |insertion|
    ensures forall j :: 0 <= j < |vs| ==> ObjectKeys(insertion)[j] in insertion && vs[j] == obj[ObjectKeys(insertion)[j]]
  {
    var keys := ObjectKeys(insertion);
    ObjectKeysFromInsertion(insertion);
    seq(|keys|, j requires 0 <= j < |keys| => obj[keys[j]])
  }

  /**
   * Every group's total is the sum of its tasks' package counts, and every
   * task in a group has a positive count, a task id, and is unscanned.
   */
  lemma GroupsConsistent(rows: seq<Row>, couriers: seq<User>, k: string)
    requires k in AppearanceOrder(TaskStream(rows))
    ensures GroupOf(TaskStream(rows), couriers, k).totalPackages == SumPackages(GroupOf(TaskStream(rows), couriers, k).tasks)
    ensures forall t :: t in GroupOf(TaskStream(rows), couriers, k).tasks ==> ValidTask(t)
  {
    TaskStreamValid(rows);
    TasksForValid(TaskStream(rows), k);
  }

  // =====================================================================
  // getAttendance
  // =====================================================================

  /** `staffUsers.find(u => u.name.toLowerCase() === name.toLowerCase() || u.id === opsId)`. */
  function FindStaff(staff: seq<User>, name: string, opsId: string): (r: Option<User>)
    ensures r.Some? ==> r.value in staff && (ToLower(r.value.name) == ToLower(name) || r.value.id == opsId)
    ensures r.None? ==> forall u :: u in staff ==> ToLower(u.name) != ToLower(name) && u.id != opsId
    ensures r.Some? ==> exists i :: 0 <= i < |staff| && staff[i] == r.value
                                    && forall j :: 0 <= j < i ==> ToLower(staff[j].name) != ToLower(name) && staff[j].id != opsId
  {
    if |staff| == 0 then None
    else if ToLower(staff[0].name) == ToLower(name) || staff[0].id == opsId then Some(staff[0])
    else
      var r := FindStaff(staff[1..], name, opsId);
      assert forall j :: 1 <= j < |staff| ==> staff[j] == staff[1..][j - 1];
      r
  }

  /** The trimmed raw status column. */
  function RawStatusOf(row: Row): string {
    Trim(Pick([Field(row, "Status"), RawAt(row, 2)], ""))
  }

  /** The attendance record of row `i`; `today` is the locale date of the day it is read. */
  /** The normalised `Ops ID` column (or first cell) of an attendance row. */
  function OpsIdOf(row: Row): string {
    NormalizeId(Some(Pick([Field(row, "Ops ID"), RawAt(row, 0)], "")))
  }

  /** The `Nama` column (or second cell), `Unnamed Staff` when neither is filled. */
  function StaffNameOf(row: Row): string {
    Pick([Field(row, "Nama"), RawAt(row, 1)], "Unnamed Staff")
  }

  /** The `Lokasi` column (or fourth cell), `-` when neither is filled. */
  function LocationOf(row: Row): string {
    Pick([Field(row, "Lokasi"), RawAt(row, 3)], "-")
  }

  /** The `Shift` column (or fifth cell), `-` when neither is filled. */
  function ShiftOf(row: Row): string {
    Pick([Field(row, "Shift"), RawAt(row, 4)], "-")
  }

  /** The `Keterangan` column (or sixth cell), empty when neither is filled. */
  function RemarksOf(row: Row): string {
    Pick([Field(row, "Keterangan"), RawAt(row, 5)], "")
  }

  /** `staff?.role || 'Operator'`: the matched staff member's role, `Operator` when none matched or it is empty. */
  function RoleOfMatch(m: Option<User>): (role: string)
    ensures role != ""
    ensures m.Some? && m.value.role != "" ==> role == m.value.role
    ensures m.None? || m.value.role == "" ==> role == "Operator"
  {
    match m
    case Some(u) => if u.role != "" then u.role else "Operator"
    case None => "Operator"
  }

  /**
   * A row with none of its columns filled reads as an unnamed staff member
   * with no ops id, location `-`, shift `-` and no remarks.
   */
  lemma AttendanceDefaults(row: Row)
    requires |row.raw| == 0 && row.fields == map[]
    ensures OpsIdOf(row) == "" && StaffNameOf(row) == "Unnamed Staff"
    ensures LocationOf(row) == "-" && ShiftOf(row) == "-" && RemarksOf(row) == ""
  {
    PickShort(Field(row, "Ops ID"), RawAt(row, 0), "");
    PickShort(Field(row, "Nama"), RawAt(row, 1), "Unnamed Staff");
    PickShort(Field(row, "Lokasi"), RawAt(row, 3), "-");
    PickShort(Field(row, "Shift"), RawAt(row, 4), "-");
    PickShort(Field(row, "Keterangan"), RawAt(row, 5), "");
    TrimOfTrimmed("");
    NormalizeIdOfClean("");
  }

  function AttendanceOfRow(row: Row, i: nat, staff: seq<User>, today: string): AttendanceRecord {
    var opsId := OpsIdOf(row);
    var name := StaffNameOf(row);
    var status := if ToLower(RawStatusOf(row)) == "hadir" then "Hadir" else "Off";
    var role := RoleOfMatch(FindStaff(staff, name, opsId));
    AttendanceRecord("att-" + Decimal(i), opsId, name, ShiftOf(row), LocationOf(row), today, status, Some(role), Some(RemarksOf(row)))
  }

  /**
   * `getAttendance(staffUsers)` on already parsed rows: exactly one record per
   * row, the `i`-th with id `att-i`, status `Hadir` exactly when the trimmed
   * raw status reads `hadir` in any letter case and `Off` otherwise.
   */
  function GetAttendance(rows: seq<Row>, staff: seq<User>, today: string): (r: seq<AttendanceRecord>)
    ensures |r| == |rows|
    ensures forall i :: 0 <= i < |r| ==> r[i].id == "att-" + Decimal(i) && r[i].date == today
    ensures forall i :: 0 <= i < |r| ==> (r[i].status == "Hadir" || r[i].status == "Off")
    ensures forall i :: 0 <= i < |r| ==> (r[i].status == "Hadir" <==> ToLower(RawStatusOf(rows[i])) == "hadir")
    ensures forall i :: 0 <= i < |r| ==> r[i].role.Some? && r[i].role.value != ""
    ensures forall i :: 0 <= i < |r| ==> && r[i].opsId == OpsIdOf(rows[i]) && r[i].name == StaffNameOf(rows[i])
                                         && r[i].shift == ShiftOf(rows[i]) && r[i].location == LocationOf(rows[i])
                                         && r[i].remarks == Some(RemarksOf(rows[i]))
    ensures forall i :: 0 <= i < |r| ==> r[i].role == Some(RoleOfMatch(FindStaff(staff, r[i].name, r[i].opsId)))
  {
    seq(|rows|, i requires 0 <= i < |rows| => AttendanceOfRow(rows[i], i, staff, today))
  }

  /** No two attendance records share an id. */
  lemma AttendanceIdsDistinct(rows: seq<Row>, staff: seq<User>, today: string, i: nat, j: nat)
    requires i < |rows| && j < |rows| && i != j
    ensures GetAttendance(rows, staff, today)[i].id != GetAttendance(rows, staff, today)[j].id
  {
    var r := GetAttendance(rows, staff, today);
    if r[i].id == r[j].id {
      assert Decimal(i) == r[i].id[4..];
      assert Decimal(j) == r[j].id[4..];
      DecimalInjective(i, j);
    }
  }

  // =====================================================================
  // getAllUsers
  // =====================================================================

  function AvatarOf(row: Row): string {
    Pick([Field(row, "AvatarUrl"), Field(row, "Avatar"), Field(row, "Avatar Url"), Field(row, "Foto")], "")
  }

  function PhotoChangeCountOf(row: Row): Option<int> {
    ParseInt(Pick([Field(row, "PhotoChangeCount"), Field(row, "Photo Change Count")], "0"))
  }

  /** A fixed default id: its own trim, with no `[digits]` group, so it normalises to itself. */
  lemma DefaultIdNormal(d: string)
    requires d == "C000" || d == "S000"
    ensures NormalizeId(Some(d)) == d
  {
    assert forall k :: 0 <= k < |d| ==> !IsSpace(d[k]) && d[k] != '[';
    TrimOfTrimmed(d);
    NormalizeIdOfClean(d);
  }

  /** The courier id column of a courier-access row, `C000` when none is filled. */
  function CourierIdOf(row: Row): (id: string)
    ensures !Truthy(Field(row, "UserID")) && !Truthy(Field(row, "User ID")) && !Truthy(Field(row, "FMS ID"))
            ==> id == "C000"
    ensures Truthy(Field(row, "UserID")) ==> id == NormalizeId(Field(row, "UserID"))
  {
    var opts := [Field(row, "UserID"), Field(row, "User ID"), Field(row, "FMS ID")];
    PickFirstTruthy(opts, "C000");
    DefaultIdNormal("C000");
    NormalizeId(Some(Pick(opts, "C000")))
  }

  /** The name column of a courier-access row, `Courier` when none is filled. */
  function CourierNameColumn(row: Row): (name: string)
    ensures name != ""
    ensures !Truthy(Field(row, "Nama Lengkap")) && !Truthy(Field(row, "Name")) && !Truthy(Field(row, "Nama Kurir"))
            ==> name == "Courier"
    ensures Truthy(Field(row, "Nama Lengkap")) ==> name == Field(row, "Nama Lengkap").value
  {
    var opts := [Field(row, "Nama Lengkap"), Field(row, "Name"), Field(row, "Nama Kurir")];
    PickFirstTruthy(opts, "Courier");
    Pick(opts, "Courier")
  }

  /**
   * A row of the courier-access sheet, with its defaults: role `Courier`,
   * station `Tompobulu`, password `123456`, NIK `1234567890`.
   */
  function CourierOfRow(row: Row): (u: User)
    ensures u.id == CourierIdOf(row) && u.name == CourierNameColumn(row)
    ensures u.role == (if Truthy(Field(row, "Jabatan")) then Field(row, "Jabatan").value else "Courier")
    ensures u.station == (if Truthy(Field(row, "Station")) then Field(row, "Station").value else "Tompobulu")
    ensures u.password == Some(if Truthy(Field(row, "Password")) then Field(row, "Password").value else "123456")
    ensures u.nik == Some(if Truthy(Field(row, "NIK")) then Field(row, "NIK").value else "1234567890")
    ensures u.avatarUrl == Some(AvatarOf(row)) && u.photoChangeCount == PhotoChangeCountOf(row)
  {
    PickShort(Field(row, "Jabatan"), None, RoleName(Courier));
    PickShort(Field(row, "Station"), None, "Tompobulu");
    PickShort(Field(row, "Password"), None, "123456");
    PickShort(Field(row, "NIK"), None, "1234567890");
    User(
      CourierIdOf(row),
      CourierNameColumn(row),
      Pick([Field(row, "Jabatan")], RoleName(Courier)),
      Pick([Field(row, "Station")], "Tompobulu"),
      Some(Pick([Field(row, "Password")], "123456")),
      Some(Pick([Field(row, "NIK")], "1234567890")),
      Some(AvatarOf(row)),
      PhotoChangeCountOf(row))
  }

  /** The staff id column of a staff-access row, `S000` when none is filled. */
  function StaffIdOf(row: Row): (id: string)
    ensures !Truthy(Field(row, "UserID")) && !Truthy(Field(row, "User ID")) && !Truthy(Field(row, "Ops ID"))
            ==> id == "S000"
    ensures Truthy(Field(row, "UserID")) ==> id == NormalizeId(Field(row, "UserID"))
  {
    var opts := [Field(row, "UserID"), Field(row, "User ID"), Field(row, "Ops ID")];
    PickFirstTruthy(opts, "S000");
    DefaultIdNormal("S000");
    NormalizeId(Some(Pick(opts, "S000")))
  }

  /** The name column of a staff-access row, `Staff` when none is filled. */
  function StaffNameColumn(row: Row): (name: string)
    ensures name != ""
    ensures !Truthy(Field(row, "Nama Lengkap")) && !Truthy(Field(row, "Name")) && !Truthy(Field(row, "Nama Staff"))
            ==> name == "Staff"
    ensures Truthy(Field(row, "Nama Lengkap")) ==> name == Field(row, "Nama Lengkap").value
  {
    var opts := [Field(row, "Nama Lengkap"), Field(row, "Name"), Field(row, "Nama Staff")];
    PickFirstTruthy(opts, "Staff");
    Pick(opts, "Staff")
  }

  /** The role column of a staff-access row: `Jabatan`, then `Role`, then `Operator`. */
  function StaffRoleColumn(row: Row): (role: string)
    ensures role != ""
    ensures !Truthy(Field(row, "Jabatan")) && !Truthy(Field(row, "Role")) ==> role == "Operator"
    ensures Truthy(Field(row, "Jabatan")) ==> role == Field(row, "Jabatan").value
    ensures !Truthy(Field(row, "Jabatan")) && Truthy(Field(row, "Role")) ==> role == Field(row, "Role").value
  {
    PickShort(Field(row, "Jabatan"), Field(row, "Role"), RoleName(Operator));
    Pick([Field(row, "Jabatan"), Field(row, "Role")], RoleName(Operator))
  }

  /**
   * A row of the staff-access sheet, with its defaults: station `Tompobulu`,
   * password `admin123`, NIK `0987654321`.
   */
  function StaffOfRow(row: Row): (u: User)
    ensures u.id == StaffIdOf(row) && u.name == StaffNameColumn(row) && u.role == StaffRoleColumn(row)
    ensures u.station == (if Truthy(Field(row, "Station")) then Field(row, "Station").value else "Tompobulu")
    ensures u.password == Some(if Truthy(Field(row, "Password")) then Field(row, "Password").value else "admin123")
    ensures u.nik == Some(if Truthy(Field(row, "NIK")) then Field(row, "NIK").value else "0987654321")
    ensures u.avatarUrl == Some(AvatarOf(row)) && u.photoChangeCount == PhotoChangeCountOf(row)
  {
    PickShort(Field(row, "Station"), None, "Tompobulu");
    PickShort(Field(row, "Password"), None, "admin123");
    PickShort(Field(row, "NIK"), None, "0987654321");
    User(
      StaffIdOf(row),
      StaffNameColumn(row),
      StaffRoleColumn(row),
      Pick([Field(row, "Station")], "Tompobulu"),
      Some(Pick([Field(row, "Password")], "admin123")),
      Some(Pick([Field(row, "NIK")], "0987654321")),
      Some(AvatarOf(row)),
      PhotoChangeCountOf(row))
  }

  /** A courier entry named `Courier` with role `Courier`: what an empty courier row turns into. */
  predicate IsPlaceholderCourier(u: User) {
    u.name == "Courier" && u.role == RoleName(Courier)
  }

  /** The `filter` that drops placeholder couriers, keeping the order of the rest. */
  function DropPlaceholders(us: seq<User>): (r: seq<User>)
    ensures |r| <= |us|
    ensures forall u :: u in r <==> u in us && !IsPlaceholderCourier(u)
  {
    if |us| == 0 then []
    else
      var init := us[..|us| - 1];
      var last := us[|us| - 1];
      assert us == init + [last];
      DropPlaceholders(init) + (if IsPlaceholderCourier(last) then [] else [last])
  }

  /** Unfolding `DropPlaceholders` once, at the last entry. */
  lemma DropPlaceholdersLast(us: seq<User>)
    requires |us| > 0
    ensures DropPlaceholders(us) == DropPlaceholders(us[..|us| - 1])
              + (if IsPlaceholderCourier(us[|us| - 1]) then [] else [us[|us| - 1]])
  {
  }

  /**
   * `filter` keeps order and multiplicity: what survives of two stretches is
   * what survives of each, in turn, and a single entry survives exactly when
   * it is not a placeholder.
   */
  lemma {:induction false} DropPlaceholdersAppend(a: seq<User>, b: seq<User>)
    ensures DropPlaceholders(a + b) == DropPlaceholders(a) + DropPlaceholders(b)
    decreases |b|
  {
    if |b| > 0 {
      var init := b[..|b| - 1];
      var ab := a + b;
      assert ab[..|ab| - 1] == a + init;
      assert ab[|ab| - 1] == b[|b| - 1];
      DropPlaceholdersLast(ab);
      DropPlaceholdersLast(b);
      DropPlaceholdersAppend(a, init);
    } else {
      assert a + b == a;
    }
  }

  /** A single entry survives exactly when it is not a placeholder. */
  lemma DropPlaceholdersSingle(u: User)
    ensures DropPlaceholders([u]) == if IsPlaceholderCourier(u) then [] else [u]
  {
    assert [u][..0] == [];
  }

  /**
   * A courier row with no name column and no `Jabatan` filled turns into the
   * placeholder `Courier`/`Courier`, which `getAllUsers` leaves out.
   */
  lemma EmptyCourierRowDropped(courierRows: seq<Row>, staffRows: seq<Row>, i: nat)
    requires i < |courierRows|
    requires !Truthy(Field(courierRows[i], "Nama Lengkap")) && !Truthy(Field(courierRows[i], "Name"))
    requires !Truthy(Field(courierRows[i], "Nama Kurir")) && !Truthy(Field(courierRows[i], "Jabatan"))
    ensures IsPlaceholderCourier(CourierOfRow(courierRows[i]))
    ensures var r := GetAllUsers(courierRows, staffRows);
            CourierOfRow(courierRows[i]) !in r[..|r| - |staffRows|]
  {
  }

  /** The courier-access rows as users, one per row. */
  function CourierUsers(rows: seq<Row>): (us: seq<User>)
    ensures |us| == |rows|
    ensures forall i :: 0 <= i < |rows| ==> us[i] == CourierOfRow(rows[i])
  {
    seq(|rows|, i requires 0 <= i < |rows| => CourierOfRow(rows[i]))
  }

  /** The staff-access rows as users, one per row. */
  function StaffUsers(rows: seq<Row>): (us: seq<User>)
    ensures |us| == |rows|
    ensures forall i :: 0 <= i < |rows| ==> us[i] == StaffOfRow(rows[i])
  {
    seq(|rows|, i requires 0 <= i < |rows| => StaffOfRow(rows[i]))
  }

  /**
   * `getAllUsers()` on already parsed rows: the couriers that are not
   * placeholders, in sheet order, followed by one user per staff row.
   */
  function GetAllUsers(courierRows: seq<Row>, staffRows: seq<Row>): (r: seq<User>)
    ensures |staffRows| <= |r| <= |courierRows| + |staffRows|
    ensures r[|r| - |staffRows|..] == StaffUsers(staffRows)
    ensures forall u :: u in r[..|r| - |staffRows|] <==> u in CourierUsers(courierRows) && !IsPlaceholderCourier(u)
    ensures r[..|r| - |staffRows|] == DropPlaceholders(CourierUsers(courierRows))
  {
    var kept := DropPlaceholders(CourierUsers(courierRows));
    var r := kept + StaffUsers(staffRows);
    assert r[..|kept|] == kept;
    assert r[|kept|..] == StaffUsers(staffRows);
    r
  }
}
