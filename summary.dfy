/**
 * The summary pages of CFME objects (cfme/common/__init__.py): `SummaryTable.load`, which
 * groups the rows of one summary table into named fields, `process_field`, which shapes a
 * field's cells into values, and `Summary.reload`, which builds one table per header.
 * Cells are given by their sane text and the `class` and `rowspan` attributes of the
 * element; attribute names come from the `attributize` function passed in.
 */
module Summaries {
  import opened Wrappers
  import opened PyText
  import opened Seqs

  /** A `<td>`: its text, and its `class` and `rowspan` attributes when present. */
  datatype Cell = Cell(text: string, klass: Option<string>, rowspan: Option<string>)

  datatype Row = Row(cells: seq<Cell>)

  /** The value of a field before shaping: the tuple of cells after the label, or, for a
      label with a row span, the list of such tuples, one per row. */
  datatype Field = Tuple(cells: seq<Cell>) | List(rows: seq<seq<Cell>>)

  /** The value of a field after `process_field`: one `SummaryValue`, a list of them, or
      (for a list field) one of those per row. */
  datatype Shaped = Single(cell: Cell) | Values(cells: seq<Cell>) | PerRow(items: seq<Shaped>)

  /** `process_field` on a tuple: one value for one cell, a list of values otherwise. */
  function ShapeTuple(cells: seq<Cell>): Shaped
  {
    if |cells| == 1 then Single(cells[0]) else Values(cells)
  }

  /** `process_field(values)`: a list is shaped element by element. */
  function ProcessField(f: Field): Shaped
  {
    match f
    case Tuple(cells) => ShapeTuple(cells)
    case List(rows) => PerRow(seq(|rows|, i requires 0 <= i < |rows| => ShapeTuple(rows[i])))
  }

  function Concat(rows: seq<seq<Cell>>): seq<Cell>
  {
    if |rows| == 0 then [] else Concat(rows[..|rows| - 1]) + rows[|rows| - 1]
  }

  /** The cells of a field, in order. */
  function FieldCells(f: Field): seq<Cell>
  {
    match f
    case Tuple(cells) => cells
    case List(rows) => Concat(rows)
  }

  /** The cells behind the values of a shaped field, in order. */
  function ShapedCells(s: Shaped): seq<Cell>
  {
    match s
    case Single(c) => [c]
    case Values(cs) => cs
    case PerRow(items) => ConcatShaped(items)
  }

  /** The cells of the values of a list field, in order. A list field's values are the
      shapes of single rows, never lists themselves (`ProcessField` builds no nested
      list), so a nested `PerRow` contributes nothing here. */
  function ConcatShaped(items: seq<Shaped>): seq<Cell>
  {
    if |items| == 0 then []
    else
      var last := items[|items| - 1];
      ConcatShaped(items[..|items| - 1]) + (if last.PerRow? then [] else ShapedCells(last))
  }

  lemma {:induction false} ConcatShapedRows(rows: seq<seq<Cell>>)
    ensures ConcatShaped(seq(|rows|, i requires 0 <= i < |rows| => ShapeTuple(rows[i]))) == Concat(rows)
  {
    if |rows| > 0 {
      var init := rows[..|rows| - 1];
      var items := seq(|rows|, i requires 0 <= i < |rows| => ShapeTuple(rows[i]));
      assert items[..|items| - 1] == seq(|init|, i requires 0 <= i < |init| => ShapeTuple(init[i]));
      ConcatShapedRows(init);
      var last := rows[|rows| - 1];
      assert ShapedCells(ShapeTuple(last)) == last;
    }
  }

  /** `process_field` keeps every cell, in order: a one-cell tuple becomes a single value,
      any other tuple a list of values, and a list is shaped row by row. */
  lemma ProcessFieldShape(f: Field)
    ensures ShapedCells(ProcessField(f)) == FieldCells(f)
    ensures f.Tuple? ==> (ProcessField(f).Single? <==> |f.cells| == 1)
    ensures f.Tuple? && |f.cells| != 1 ==> ProcessField(f) == Values(f.cells)
    ensures f.List? ==> ProcessField(f).PerRow? && |ProcessField(f).items| == |f.rows|
                        && forall i :: 0 <= i < |f.rows| ==> ProcessField(f).items[i] == ProcessField(Tuple(f.rows[i]))
  {
    if f.List? {
      ConcatShapedRows(f.rows);
    }
  }

  // ---------------------------------------------------------------------------------
  // SummaryTable.load, the branch for ordinary (not multi-key) tables

  /** One row of `key_values`: the label cell, its attribute name and its value. */
  datatype Entry = Entry(key: Cell, keyId: string, value: Field)

  /** What grouping raises. */
  datatype LoadError =
    | EmptyRow         // IndexError: `tds[0]` of a row without cells
    | NothingToExtend  // IndexError: `key_values[-1]` before the first label row
    | ExtendsTuple     // AttributeError: appending to the tuple of a label without row span

  /** The first cell's class names it a label. */
  predicate IsLabel(c: Cell)
  {
    c.klass.Some? && Contains(c.klass.value, "label")
  }

  /** The label's `rowspan` is an integer other than 0. */
  predicate ListValued(c: Cell)
  {
    c.rowspan.Some? && ParseInt(c.rowspan.value).Some? && ParseInt(c.rowspan.value).value != 0
  }

  /** One trip of the grouping loop. */
  function Step(acc: Result<seq<Entry>, LoadError>, row: Row, attributize: string -> string): Result<seq<Entry>, LoadError>
  {
    match acc
    case Failure(e) => Failure(e)
    case Success(es) =>
      if |row.cells| == 0 then Failure(EmptyRow)
      else if IsLabel(row.cells[0]) then
        var key := row.cells[0];
        Success(es + [Entry(key, attributize(key.text), if ListValued(key) then List([row.cells[1..]]) else Tuple(row.cells[1..]))])
      else if |es| == 0 then Failure(NothingToExtend)
      else
        var last := es[|es| - 1];
        if last.value.Tuple? then Failure(ExtendsTuple)
        else Success(es[..|es| - 1] + [last.(value := List(last.value.rows + [row.cells]))])
  }

  /** `key_values` after the rows, or the error grouping raises. */
  function GroupRows(rows: seq<Row>, attributize: string -> string): Result<seq<Entry>, LoadError>
  {
    if |rows| == 0 then Success([])
    else Step(GroupRows(rows[..|rows| - 1], attributize), rows[|rows| - 1], attributize)
  }

  /** The label cells among the rows, in order. */
  function Labels(rows: seq<Row>): seq<Cell>
  {
    if |rows| == 0 then []
    else
      var last := rows[|rows| - 1];
      Labels(rows[..|rows| - 1]) + (if |last.cells| > 0 && IsLabel(last.cells[0]) then [last.cells[0]] else [])
  }

  /** The cells a row contributes to the values: all but the label of a label row. */
  function RowCells(r: Row): seq<Cell>
  {
    if |r.cells| > 0 && IsLabel(r.cells[0]) then r.cells[1..] else r.cells
  }

  function AllRowCells(rows: seq<Row>): seq<Cell>
  {
    if |rows| == 0 then [] else AllRowCells(rows[..|rows| - 1]) + RowCells(rows[|rows| - 1])
  }

  function EntryCells(es: seq<Entry>): seq<Cell>
  {
    if |es| == 0 then [] else EntryCells(es[..|es| - 1]) + FieldCells(es[|es| - 1].value)
  }

  /** An entry as its label row makes it: list-valued exactly when the label has a row
      span, under the attribute name of the label's text. */
  predicate WellFormedEntry(e: Entry, attributize: string -> string)
  {
    && IsLabel(e.key)
    && e.keyId == attributize(e.key.text)
    && (e.value.List? <==> ListValued(e.key))
  }

  lemma EntryCellsAppend(es: seq<Entry>, e: Entry)
    ensures EntryCells(es + [e]) == EntryCells(es) + FieldCells(e.value)
  {
    TakeAppend(es, [e]);
  }

  lemma ConcatAppend(rows: seq<seq<Cell>>, cells: seq<Cell>)
    ensures Concat(rows + [cells]) == Concat(rows) + cells
  {
    TakeAppend(rows, [cells]);
  }

  lemma ConcatSingle(cells: seq<Cell>)
    ensures Concat([cells]) == cells
  {
    assert [cells][..0] == [];
  }

  lemma EntryCellsExtend(es: seq<Entry>, rows: seq<seq<Cell>>, cells: seq<Cell>)
    requires |es| > 0 && es[|es| - 1].value == List(rows)
    ensures EntryCells(es[..|es| - 1] + [es[|es| - 1].(value := List(rows + [cells]))]) == EntryCells(es) + cells
  {
    var init := es[..|es| - 1];
    var last := es[|es| - 1];
    var e := last.(value := List(rows + [cells]));
    EntryCellsAppend(init, e);
    ConcatAppend(rows, cells);
    SplitLast(es);
    EntryCellsAppend(init, last);
    AppendAssoc(EntryCells(init), Concat(rows), cells);
  }

  /** The entries are those of the label cells `labels`, in order, each shaped by its label. */
  predicate EntriesOf(es: seq<Entry>, labels: seq<Cell>, attributize: string -> string)
  {
    && |es| == |labels|
    && forall i :: 0 <= i < |es| ==> es[i].key == labels[i] && WellFormedEntry(es[i], attributize)
  }

  lemma EntriesOfAppend(es: seq<Entry>, labels: seq<Cell>, e: Entry, attributize: string -> string)
    requires EntriesOf(es, labels, attributize) && WellFormedEntry(e, attributize)
    ensures EntriesOf(es + [e], labels + [e.key], attributize)
  {
  }

  lemma EntriesOfExtend(es: seq<Entry>, labels: seq<Cell>, cells: seq<Cell>, attributize: string -> string)
    requires EntriesOf(es, labels, attributize) && |es| > 0 && es[|es| - 1].value.List?
    ensures var last := es[|es| - 1];
            EntriesOf(es[..|es| - 1] + [last.(value := List(last.value.rows + [cells]))], labels, attributize)
  {
    var last := es[|es| - 1];
    var e := last.(value := List(last.value.rows + [cells]));
    var es' := es[..|es| - 1] + [e];
    assert e.key == last.key && e.keyId == last.keyId && e.value.List?;
    assert WellFormedEntry(last, attributize) by {
      var n := |es| - 1;
      assert es[n].key == labels[n] && WellFormedEntry(es[n], attributize);
    }
    assert ListValued(e.key);
    assert WellFormedEntry(e, attributize);
    forall i | 0 <= i < |es'| ensures es'[i].key == labels[i] && WellFormedEntry(es'[i], attributize) {
      if i < |es| - 1 {
        assert es'[i] == es[i];
      } else {
        assert es'[i] == e && labels[i] == last.key;
      }
    }
  }

  /** Grouping makes one entry per label row, in order, each shaped by its label. */
  lemma {:induction false} GroupRowsEntries(rows: seq<Row>, attributize: string -> string)
    requires GroupRows(rows, attributize).Success?
    ensures EntriesOf(GroupRows(rows, attributize).value, Labels(rows), attributize)
  {
    if |rows| > 0 {
      var init := rows[..|rows| - 1];
      var row := rows[|rows| - 1];
      GroupRowsEntries(init, attributize);
      var es := GroupRows(init, attributize).value;
      if IsLabel(row.cells[0]) {
        var key := row.cells[0];
        var e := Entry(key, attributize(key.text), if ListValued(key) then List([row.cells[1..]]) else Tuple(row.cells[1..]));
        EntriesOfAppend(es, Labels(init), e, attributize);
      } else {
        EntriesOfExtend(es, Labels(init), row.cells, attributize);
        assert Labels(rows) == Labels(init) + [];
        assert Labels(init) + [] == Labels(init);
      }
    }
  }

  /** The cells of the entries are the cells of the rows, labels aside, in order. */
  lemma {:induction false} GroupRowsCells(rows: seq<Row>, attributize: string -> string)
    requires GroupRows(rows, attributize).Success?
    ensures EntryCells(GroupRows(rows, attributize).value) == AllRowCells(rows)
  {
    if |rows| > 0 {
      var init := rows[..|rows| - 1];
      var row := rows[|rows| - 1];
      GroupRowsCells(init, attributize);
      var es := GroupRows(init, attributize).value;
      assert AllRowCells(rows) == AllRowCells(init) + RowCells(row);
      if IsLabel(row.cells[0]) {
        var key := row.cells[0];
        var e := Entry(key, attributize(key.text), if ListValued(key) then List([row.cells[1..]]) else Tuple(row.cells[1..]));
        assert GroupRows(rows, attributize).value == es + [e];
        EntryCellsAppend(es, e);
        ConcatSingle(row.cells[1..]);
        assert FieldCells(e.value) == RowCells(row);
      } else {
        var last := es[|es| - 1];
        EntryCellsExtend(es, last.value.rows, row.cells);
      }
    }
  }

  /** Row `k` cannot be grouped after the rows before it: it has no cells, or it continues
      a field when there is no label before it or the last label has no row span. */
  predicate BadRow(rows: seq<Row>, k: nat)
    requires k < |rows|
  {
    || |rows[k].cells| == 0
    || (!IsLabel(rows[k].cells[0])
        && (|Labels(rows[..k])| == 0 || !ListValued(Labels(rows[..k])[|Labels(rows[..k])| - 1])))
  }

  lemma BadRowPrefix(rows: seq<Row>, n: nat, k: nat)
    requires k < n <= |rows|
    ensures BadRow(rows[..n], k) <==> BadRow(rows, k)
  {
    TakeTake(rows, n, k);
  }

  /** After rows that group, the next row raises exactly when it is bad. */
  lemma LastRowDecides(rows: seq<Row>, attributize: string -> string)
    requires |rows| > 0 && GroupRows(rows[..|rows| - 1], attributize).Success?
    ensures GroupRows(rows, attributize).Failure? <==> BadRow(rows, |rows| - 1)
  {
    var init := rows[..|rows| - 1];
    var row := rows[|rows| - 1];
    var es := GroupRows(init, attributize).value;
    if |row.cells| > 0 && !IsLabel(row.cells[0]) {
      GroupRowsEntries(init, attributize);
      var labels := Labels(init);
      if |es| > 0 {
        assert es[|es| - 1].key == labels[|labels| - 1];
        assert es[|es| - 1].value.List? <==> ListValued(labels[|labels| - 1]);
      } else {
        assert |labels| == 0;
      }
    }
  }

  /** Grouping raises exactly when some row is bad. */
  lemma GroupRowsFailsIff(rows: seq<Row>, attributize: string -> string)
    ensures GroupRows(rows, attributize).Failure? <==> exists k :: 0 <= k < |rows| && BadRow(rows, k)
  {
    if GroupRows(rows, attributize).Failure? {
      var k := FailingRow(rows, attributize);
    }
    if exists k :: 0 <= k < |rows| && BadRow(rows, k) {
      var k :| 0 <= k < |rows| && BadRow(rows, k);
      BadRowFails(rows, k, attributize);
    }
  }

  /** A grouping that raises has a bad row. */
  lemma {:induction false} FailingRow(rows: seq<Row>, attributize: string -> string) returns (k: nat)
    requires GroupRows(rows, attributize).Failure?
    ensures k < |rows| && BadRow(rows, k)
  {
    var n := |rows| - 1;
    var init := rows[..n];
    if GroupRows(init, attributize).Failure? {
      k := FailingRow(init, attributize);
      BadRowPrefix(rows, n, k);
    } else {
      LastRowDecides(rows, attributize);
      k := n;
    }
  }

  /** A bad row makes grouping raise. */
  lemma BadRowFails(rows: seq<Row>, k: nat, attributize: string -> string)
    requires k < |rows| && BadRow(rows, k)
    ensures GroupRows(rows, attributize).Failure?
  {
    var p := rows[..k + 1];
    BadRowPrefix(rows, k + 1, k);
    if GroupRows(p[..k], attributize).Success? {
      LastRowDecides(p, attributize);
    }
    FailureSticks(rows, k + 1, attributize);
  }

  /** The attributes after setting the entries' values in order: the last entry with a
      given name wins. */
  function SetFields(attrs: map<string, Shaped>, es: seq<Entry>): map<string, Shaped>
  {
    if |es| == 0 then attrs
    else SetFields(attrs, es[..|es| - 1])[es[|es| - 1].keyId := ProcessField(es[|es| - 1].value)]
  }

  /** The attributes set are the old ones and the entries' names. */
  lemma {:induction false} SetFieldsKeys(attrs: map<string, Shaped>, es: seq<Entry>)
    ensures SetFields(attrs, es).Keys == attrs.Keys + Names(KeyIds(es))
  {
    if |es| > 0 {
      var init := es[..|es| - 1];
      SetFieldsKeys(attrs, init);
      assert KeyIds(es) == KeyIds(init) + [es[|es| - 1].keyId];
    }
  }

  /** An attribute no entry names keeps its value. */
  lemma {:induction false} SetFieldsOther(attrs: map<string, Shaped>, es: seq<Entry>, k: string)
    requires k in attrs && forall i :: 0 <= i < |es| ==> es[i].keyId != k
    ensures k in SetFields(attrs, es) && SetFields(attrs, es)[k] == attrs[k]
  {
    if |es| > 0 {
      var init := es[..|es| - 1];
      assert forall i :: 0 <= i < |init| ==> init[i] == es[i];
      SetFieldsOther(attrs, init, k);
    }
  }

  /** A named attribute holds the shaped value of the last entry with that name. */
  lemma {:induction false} SetFieldsLast(attrs: map<string, Shaped>, es: seq<Entry>, i: nat)
    requires i < |es| && forall j :: i < j < |es| ==> es[j].keyId != es[i].keyId
    ensures es[i].keyId in SetFields(attrs, es) && SetFields(attrs, es)[es[i].keyId] == ProcessField(es[i].value)
  {
    if i < |es| - 1 {
      var init := es[..|es| - 1];
      assert forall j :: 0 <= j < |init| ==> init[j] == es[j];
      SetFieldsLast(attrs, init, i);
    }
  }

  function KeyIds(es: seq<Entry>): seq<string>
  {
    seq(|es|, i requires 0 <= i < |es| => es[i].keyId)
  }

  function RawKeys(es: seq<Entry>): seq<string>
  {
    seq(|es|, i requires 0 <= i < |es| => es[i].key.text)
  }

  /** Grouping again with more rows only ever changes the last entry or adds entries. */
  lemma GroupRowsStep(rows: seq<Row>, i: nat, attributize: string -> string)
    requires i < |rows|
    ensures GroupRows(rows[..i + 1], attributize) == Step(GroupRows(rows[..i], attributize), rows[i], attributize)
  {
    assert rows[..i + 1][..i] == rows[..i];
  }

  /** One trip of the grouping loop of `load()`: a label row appends an entry, a
      continuation row extends the last entry's list in place. This is the imperative
      counterpart of `Step`, which specifies it. */
  method GroupRow(keyValues: seq<Entry>, row: Row, attributize: string -> string) returns (r: Result<seq<Entry>, LoadError>)
    ensures r == Step(Success(keyValues), row, attributize)
  {
    var tds := row.cells;
    if |tds| == 0 {
      return Failure(EmptyRow);
    }
    var key := tds[0];
    if IsLabel(key) {
      var keyId := attributize(key.text);
      var value: Field := Tuple(tds[1..]);
      if ListValued(key) {
        return Success(keyValues + [Entry(key, keyId, List([value.cells]))]);
      }
      return Success(keyValues + [Entry(key, keyId, value)]);
    }
    if |keyValues| == 0 {
      return Failure(NothingToExtend);
    }
    var last := keyValues[|keyValues| - 1];
    if last.value.Tuple? {
      return Failure(ExtendsTuple);
    }
    return Success(keyValues[..|keyValues| - 1] + [last.(value := List(last.value.rows + [tds]))]);
  }

  /** The grouping loop of `load()`: `key_values` built row by row, stopping at the first
      row that raises. */
  method GroupTableRows(rows: seq<Row>, attributize: string -> string) returns (r: Result<seq<Entry>, LoadError>)
    ensures r == GroupRows(rows, attributize)
  {
    var keyValues: seq<Entry> := [];
    var i := 0;
    while i < |rows|
      invariant 0 <= i <= |rows|
      invariant GroupRows(rows[..i], attributize) == Success(keyValues)
    {
      GroupRowsStep(rows, i, attributize);
      var next := GroupRow(keyValues, rows[i], attributize);
      if next.Failure? {
        FailureSticks(rows, i + 1, attributize);
        return next;
      }
      keyValues := next.value;
      i := i + 1;
    }
    assert rows[..i] == rows;
    return Success(keyValues);
  }

  /** One more entry: its label text and name are appended and its value set. */
  lemma EntriesStep(es: seq<Entry>, j: nat, attrs: map<string, Shaped>)
    requires j < |es|
    ensures RawKeys(es[..j + 1]) == RawKeys(es[..j]) + [es[j].key.text]
    ensures KeyIds(es[..j + 1]) == KeyIds(es[..j]) + [es[j].keyId]
    ensures SetFields(attrs, es[..j + 1]) == SetFields(attrs, es[..j])[es[j].keyId := ProcessField(es[j].value)]
  {
    TakeTake(es, j + 1, j);
    assert es[..j + 1][j] == es[j];
  }

  class SummaryTable {
    /** `_text`: the table's title. */
    var text: string
    /** `_raw_keys`: the label texts. */
    var rawKeys: seq<string>
    /** `_keys`: the attribute names of the fields, in row order. */
    var keys: seq<string>
    /** The fields set on the object by `setattr`. */
    var attrs: map<string, Shaped>

    /** A table before loading (the constructor's `skip_load` path; otherwise it is loaded
        right away). */
    constructor(title: string)
      ensures text == title && rawKeys == [] && keys == [] && attrs == map[]
    {
      text := title;
      rawKeys := [];
      keys := [];
      attrs := map[];
    }

    /** `load()` on the rows of an ordinary table. */
    method Load(rows: seq<Row>, attributize: string -> string) returns (err: Option<LoadError>)
      modifies this
      ensures text == old(text)
      ensures GroupRows(rows, attributize).Failure? ==>
                err == Some(GroupRows(rows, attributize).error) && rawKeys == [] && keys == [] && attrs == old(attrs)
      ensures GroupRows(rows, attributize).Success? ==>
                var es := GroupRows(rows, attributize).value;
                && err == None
                && rawKeys == RawKeys(es) && keys == KeyIds(es)
                && attrs == SetFields(old(attrs), es)
    {
      rawKeys := [];
      keys := [];
      var grouped := GroupTableRows(rows, attributize);
      if grouped.Failure? {
        return Some(grouped.error);
      }
      var keyValues := grouped.value;
      var j := 0;
      while j < |keyValues|
        invariant 0 <= j <= |keyValues|
        invariant rawKeys == RawKeys(keyValues[..j]) && keys == KeyIds(keyValues[..j])
        invariant attrs == SetFields(old(attrs), keyValues[..j])
        invariant text == old(text)
      {
        var e := keyValues[j];
        EntriesStep(keyValues, j, old(attrs));
        attrs := attrs[e.keyId := ProcessField(e.value)];
        rawKeys := rawKeys + [e.key.text];
        keys := keys + [e.keyId];
        j := j + 1;
      }
      assert keyValues[..j] == keyValues;
      return None;
    }

    /** `reload()`: the fields of the previous load are removed, then the table is loaded
        again. */
    method Reload(rows: seq<Row>, attributize: string -> string) returns (err: Option<LoadError>)
      modifies this
      ensures text == old(text)
      ensures GroupRows(rows, attributize).Failure? ==>
                err == Some(GroupRows(rows, attributize).error) && rawKeys == [] && keys == []
                && attrs == old(attrs) - Names(old(keys))
      ensures GroupRows(rows, attributize).Success? ==>
                var es := GroupRows(rows, attributize).value;
                && err == None
                && rawKeys == RawKeys(es) && keys == KeyIds(es)
                && attrs == SetFields(old(attrs) - Names(old(keys)), es)
    {
      var i := 0;
      while i < |keys|
        invariant 0 <= i <= |keys|
        invariant attrs == old(attrs) - Names(keys[..i])
        invariant keys == old(keys) && text == old(text)
      {
        assert keys[..i + 1] == keys[..i] + [keys[i]];
        attrs := attrs - {keys[i]};
        i := i + 1;
      }
      assert keys[..i] == keys;
      err := Load(rows, attributize);
    }
  }

  /** Once grouping has raised, later rows do not change the error. */
  lemma {:induction false} FailureSticks(rows: seq<Row>, i: nat, attributize: string -> string)
    requires i <= |rows| && GroupRows(rows[..i], attributize).Failure?
    ensures GroupRows(rows, attributize) == GroupRows(rows[..i], attributize)
    decreases |rows| - i
  {
    if i < |rows| {
      GroupRowsStep(rows, i, attributize);
      FailureSticks(rows, i + 1, attributize);
    } else {
      assert rows[..i] == rows;
    }
  }

  // ---------------------------------------------------------------------------------
  // Summary.reload

  /** A `<th>` header of the page with the rows of its table. */
  datatype Header = Header(text: string, rows: seq<Row>)

  /** The headers whose tables load, up to the first that raises. */
  function Loadable(headers: seq<Header>, attributize: string -> string): (n: nat)
    ensures n <= |headers|
    ensures forall i :: 0 <= i < n ==> GroupRows(headers[i].rows, attributize).Success?
    ensures n < |headers| ==> GroupRows(headers[n].rows, attributize).Failure?
  {
    if |headers| == 0 then 0
    else if GroupRows(headers[0].rows, attributize).Failure? then 0
    else 1 + Loadable(headers[1..], attributize)
  }

  function HeaderIds(headers: seq<Header>, attributize: string -> string): seq<string>
  {
    seq(|headers|, i requires 0 <= i < |headers| => attributize(headers[i].text))
  }

  /** Where the header loop stands: a header that loads moves past it, one that raises is
      the first that does. */
  lemma LoadableStep(headers: seq<Header>, h: nat, attributize: string -> string)
    requires h < |headers| && h <= Loadable(headers, attributize)
    ensures GroupRows(headers[h].rows, attributize).Success? ==> h + 1 <= Loadable(headers, attributize)
    ensures GroupRows(headers[h].rows, attributize).Failure? ==> h == Loadable(headers, attributize)
  {
  }

  lemma HeaderIdsStep(headers: seq<Header>, h: nat, attributize: string -> string)
    requires h < |headers|
    ensures HeaderIds(headers[..h + 1], attributize) == HeaderIds(headers[..h], attributize) + [attributize(headers[h].text)]
  {
  }

  /** The last header among `headers` whose attribute name is `id`: its table is the one
      `setattr` leaves under that name. */
  function LastHeader(headers: seq<Header>, id: string, attributize: string -> string): (r: Option<Header>)
    ensures r.Some? <==> id in HeaderIds(headers, attributize)
    ensures r.Some? ==> r.value in headers && attributize(r.value.text) == id
  {
    if |headers| == 0 then None
    else
      var init := headers[..|headers| - 1];
      var last := headers[|headers| - 1];
      assert HeaderIds(headers, attributize) == HeaderIds(init, attributize) + [attributize(last.text)];
      if attributize(last.text) == id then Some(last)
      else
        var r := LastHeader(init, id, attributize);
        assert r.Some? ==> r.value in headers;
        r
  }

  /** One more header: it is the last one with its own name, and other names keep theirs. */
  lemma LastHeaderStep(headers: seq<Header>, h: nat, id: string, attributize: string -> string)
    requires h < |headers|
    ensures LastHeader(headers[..h + 1], id, attributize) ==
            if attributize(headers[h].text) == id then Some(headers[h]) else LastHeader(headers[..h], id, attributize)
  {
    assert headers[..h + 1][..h] == headers[..h];
  }

  /** `LastHeaderStep` for every name at once, as the header loop uses it. */
  lemma LastHeaderSteps(headers: seq<Header>, h: nat, attributize: string -> string)
    requires h < |headers|
    ensures LastHeader(headers[..h + 1], attributize(headers[h].text), attributize) == Some(headers[h])
    ensures forall id :: attributize(headers[h].text) != id ==>
              LastHeader(headers[..h + 1], id, attributize) == LastHeader(headers[..h], id, attributize)
  {
    forall id
      ensures LastHeader(headers[..h + 1], id, attributize) ==
              (if attributize(headers[h].text) == id then Some(headers[h]) else LastHeader(headers[..h], id, attributize))
    {
      LastHeaderStep(headers, h, id, attributize);
    }
  }

  /** Table `t` holds what loading the rows of `header` gives: the header's text as title,
      the label texts, the attribute names and the fields set from an empty object. */
  predicate LoadedFrom(t: SummaryTable, header: Header, attributize: string -> string)
    reads t
  {
    && GroupRows(header.rows, attributize).Success?
    && var es := GroupRows(header.rows, attributize).value;
    && t.text == header.text
    && t.rawKeys == RawKeys(es) && t.keys == KeyIds(es)
    && t.attrs == SetFields(map[], es)
  }

  class Summary {
    /** `_keys`: the attribute names of the tables, in header order. */
    var keys: seq<string>
    /** The tables set on the object by `setattr`. */
    var tables: map<string, SummaryTable>

    constructor()
      ensures keys == [] && tables == map[]
    {
      keys := [];
      tables := map[];
    }

    /** The `delattr` loop: the tables of the previous load are removed. */
    method ClearTables()
      modifies this`tables
      ensures tables == old(tables) - Names(keys)
    {
      var i := 0;
      while i < |keys|
        invariant 0 <= i <= |keys|
        invariant tables == old(tables) - Names(keys[..i])
      {
        assert keys[..i + 1] == keys[..i] + [keys[i]];
        tables := tables - {keys[i]};
        i := i + 1;
      }
      assert keys[..i] == keys;
    }

    /** One header of `reload()`: its table is built and loaded; when loading succeeds the
        table is set under the header's attribute name and that name is appended to the
        keys, and when it raises nothing further changes. */
    method AddTable(header: Header, attributize: string -> string) returns (err: Option<LoadError>)
      modifies this
      ensures GroupRows(header.rows, attributize).Failure? ==>
                err == Some(GroupRows(header.rows, attributize).error)
                && keys == old(keys) && tables == old(tables)
      ensures GroupRows(header.rows, attributize).Success? ==>
                var id := attributize(header.text);
                && err == None && keys == old(keys) + [id]
                && id in tables && fresh(tables[id]) && tables == old(tables)[id := tables[id]]
                && LoadedFrom(tables[id], header, attributize)
    {
      var table := new SummaryTable(header.text);
      err := table.Load(header.rows, attributize);
      if err.None? {
        var id := attributize(header.text);
        tables := tables[id := table];
        keys := keys + [id];
      }
    }

    /** Every key's table holds what loading the last header of `hs` with that name gives. */
    ghost predicate LoadedFromLast(hs: seq<Header>, attributize: string -> string)
      reads this, tables.Values
    {
      forall k :: k in keys ==>
        k in tables && var last := LastHeader(hs, k, attributize);
        last.Some? && LoadedFrom(tables[k], last.value, attributize)
    }

    /** The header loop of `reload()`, from no keys: the headers' tables are set in order
        until one raises. */
    method LoadHeaders(headers: seq<Header>, attributize: string -> string) returns (err: Option<LoadError>)
      requires keys == []
      modifies this
      ensures var n := Loadable(headers, attributize);
              && keys == HeaderIds(headers[..n], attributize)
              && (err.None? <==> n == |headers|)
              && (err.Some? ==> err == Some(GroupRows(headers[n].rows, attributize).error))
      ensures tables.Keys == old(tables).Keys + Names(keys)
      ensures forall k :: k in old(tables) && k !in keys ==> tables[k] == old(tables)[k]
      ensures forall k :: k in keys ==> fresh(tables[k])
      ensures LoadedFromLast(headers[..Loadable(headers, attributize)], attributize)
    {
      err := None;
      var h := 0;
      while h < |headers|
        invariant 0 <= h <= |headers|
        invariant h <= Loadable(headers, attributize) && err == None
        invariant keys == HeaderIds(headers[..h], attributize)
        invariant tables.Keys == old(tables).Keys + Names(keys)
        invariant forall k :: k in old(tables) && k !in keys ==> tables[k] == old(tables)[k]
        invariant forall k :: k in keys ==> fresh(tables[k])
        invariant LoadedFromLast(headers[..h], attributize)
      {
        LoadableStep(headers, h, attributize);
        HeaderIdsStep(headers, h, attributize);
        LastHeaderSteps(headers, h, attributize);
        err := AddTable(headers[h], attributize);
        if err.Some? {
          return;
        }
        h := h + 1;
      }
      assert headers[..h] == headers;
    }

    /** `reload()`: the tables of the previous load are removed, then one table per header
        is built and loaded, in order; a table that fails to load stops the reload with its
        error after the tables before it are in place. */
    method Reload(headers: seq<Header>, attributize: string -> string) returns (err: Option<LoadError>)
      modifies this
      ensures var n := Loadable(headers, attributize);
              && keys == HeaderIds(headers[..n], attributize)
              && (err.None? <==> n == |headers|)
              && (err.Some? ==> err == Some(GroupRows(headers[n].rows, attributize).error))
      ensures tables.Keys == (old(tables).Keys - Names(old(keys))) + Names(keys)
      ensures forall k :: k in old(tables) && k !in old(keys) && k !in keys ==> tables[k] == old(tables)[k]
      ensures forall k :: k in keys ==> fresh(tables[k])
      ensures LoadedFromLast(headers[..Loadable(headers, attributize)], attributize)
    {
      ClearTables();
      keys := [];
      err := LoadHeaders(headers, attributize);
    }
  }
}
