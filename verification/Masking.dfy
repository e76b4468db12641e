/** Applying an access decision to response data: a recursive walk over nested payloads, and the row-wise form. */
module Masking {
  import opened AbacEngine
  import opened Options

  /** A JSON-like value.  Scalar carries the text that str() gives for a number or a boolean. */
  datatype Node = Null | Str(text: string) | Scalar(repr: string) | Arr(items: seq<Node>) | Obj(entries: seq<Entry>)

  datatype Entry = Entry(key: string, value: Node)

  /** str() of a list or dictionary is left abstract. */
  type Renderer = Node -> string

  function Text(render: Renderer, v: Node): string {
    match v
    case Str(s) => s
    case Scalar(s) => s
    case _ => render(v)
  }

  function Stars(n: nat): (s: string)
    ensures |s| == n && forall i :: 0 <= i < n ==> s[i] == '*'
  {
    seq(n, _ => '*')
  }

  function MaskText(s: string): (r: string)
    ensures |s| > 2 ==> |r| == |s| && r[0] == s[0] && r[|s| - 1] == s[|s| - 1]
    ensures |s| > 2 ==> forall i :: 0 < i < |s| - 1 ==> r[i] == '*'
    ensures |s| <= 2 ==> r == Stars(3)
  {
    if |s| <= 2 then Stars(3) else [s[0]] + Stars(|s| - 2) + [s[|s| - 1]]
  }

  /** "***" hides nothing and short texts; of a longer one the first and the last character remain. */
  predicate Hides(masked: string, text: string) {
    if |text| <= 2 then masked == "***"
    else
      && |masked| == |text| && masked[0] == text[0] && masked[|text| - 1] == text[|text| - 1]
      && forall i :: 0 < i < |text| - 1 ==> masked[i] == '*'
  }

  function MaskValue(render: Renderer, v: Node): (r: Node)
    ensures r.Str? && Hides(r.text, match v case Null => "" case Str(s) => s case Scalar(s) => s case _ => render(v))
  {
    if v == Null then Str(Stars(3)) else Str(MaskText(Text(render, v)))
  }

  /** Masking a masked value changes nothing. */
  lemma MaskValueIdempotent(render: Renderer, v: Node)
    ensures MaskValue(render, MaskValue(render, v)) == MaskValue(render, v)
  {
    var t := MaskValue(render, v).text;
    assert MaskText(t) == t;
  }

  // ---- The walk --------------------------------------------------------------------------------------------

  function Walk(fields: set<string>, render: Renderer, node: Node): Node
    decreases node, 1
  {
    match node
    case Obj(entries) => Obj(WalkEntries(fields, render, entries))
    case Arr(items) => Arr(WalkItems(fields, render, items))
    case _ => node
  }

  function WalkEntries(fields: set<string>, render: Renderer, entries: seq<Entry>): (r: seq<Entry>)
    ensures |r| == |entries|
    ensures forall i :: 0 <= i < |r| ==> r[i] == WalkEntry(fields, render, entries[i])
    decreases entries, 0
  {
    if entries == [] then []
    else [WalkEntry(fields, render, entries[0])] + WalkEntries(fields, render, entries[1..])
  }

  function WalkEntry(fields: set<string>, render: Renderer, entry: Entry): Entry
    decreases entry, 0
  {
    Entry(entry.key,
          if entry.key in fields then MaskValue(render, entry.value) else Walk(fields, render, entry.value))
  }

  function WalkItems(fields: set<string>, render: Renderer, items: seq<Node>): (r: seq<Node>)
    ensures |r| == |items|
    ensures forall i :: 0 <= i < |r| ==> r[i] == Walk(fields, render, items[i])
    decreases items, 0
  {
    if items == [] then []
    else [Walk(fields, render, items[0])] + WalkItems(fields, render, items[1..])
  }

  // ---- What the walk does, place by place --------------------------------------------------------------------

  /** A step into a dictionary, by position and key, or into a list. */
  datatype Step = Field(position: nat, key: string) | Index(position: nat)

  type Path = seq<Step>

  datatype Place = Nowhere | At(node: Node)

  function Child(node: Node, step: Step): Place {
    match (node, step)
    case (Obj(entries), Field(i, key)) =>
      if i < |entries| && entries[i].key == key then At(entries[i].value) else Nowhere
    case (Arr(items), Index(i)) => if i < |items| then At(items[i]) else Nowhere
    case _ => Nowhere
  }

  function Get(node: Node, path: Path): Place
    decreases |path|
  {
    if path == [] then At(node)
    else match Child(node, path[0])
      case Nowhere => Nowhere
      case At(child) => Get(child, path[1..])
  }

  predicate EntersMasked(fields: set<string>, step: Step) {
    step.Field? && step.key in fields
  }

  /** What a path meets in the original: the value under its first masked key when it ends there, nothing when it
      ends below one or leads nowhere, and an unmasked value otherwise. */
  datatype Met = Absent | MaskedKey(original: Node) | Open(original: Node)

  function Meet(fields: set<string>, node: Node, path: Path): Met
    decreases |path|
  {
    if path == [] then Open(node)
    else match Child(node, path[0])
      case Nowhere => Absent
      case At(child) =>
        if !EntersMasked(fields, path[0]) then Meet(fields, child, path[1..])
        else if |path| == 1 then MaskedKey(child)
        else Absent
  }

  /** Dictionaries with the same keys in the same order, lists of the same length, or the same leaf. */
  ghost predicate SameTop(a: Node, b: Node) {
    match (a, b)
    case (Obj(es), Obj(fs)) => |es| == |fs| && forall i :: 0 <= i < |es| ==> es[i].key == fs[i].key
    case (Arr(xs), Arr(ys)) => |xs| == |ys|
    case _ => a == b
  }

  /** The law at one path: out has the masked value where the original has a masked key, nothing where there is
      nothing to show, and everywhere else a value of the same shape. */
  ghost predicate LawAt(fields: set<string>, render: Renderer, node: Node, out: Node, path: Path) {
    match Meet(fields, node, path)
    case Absent => Get(out, path) == Nowhere
    case MaskedKey(v) => Get(out, path) == At(MaskValue(render, v))
    case Open(v) => Get(out, path).At? && SameTop(Get(out, path).node, v)
  }

  lemma {:induction false} WalkLaw(fields: set<string>, render: Renderer, node: Node, path: Path)
    ensures LawAt(fields, render, node, Walk(fields, render, node), path)
    decreases |path|
  {
    if path != [] {
      var child := Child(node, path[0]);
      if child.At? && !EntersMasked(fields, path[0]) {
        WalkLaw(fields, render, child.node, path[1..]);
      }
    }
  }

  lemma {:induction false} LawDetermines(fields: set<string>, render: Renderer, node: Node, out: Node)
    requires forall path :: LawAt(fields, render, node, out, path)
    ensures out == Walk(fields, render, node)
    decreases node
  {
    assert LawAt(fields, render, node, out, []);
    match node
    case Obj(entries) =>
      var walked := WalkEntries(fields, render, entries);
      forall i | 0 <= i < |entries| ensures out.entries[i] == walked[i] {
        var step := Field(i, entries[i].key);
        if entries[i].key in fields {
          assert LawAt(fields, render, node, out, [step]) && Meet(fields, node, [step]) == MaskedKey(entries[i].value);
          assert Get(out, [step]) == Get(out.entries[i].value, [step][1..]);
        } else {
          LawBelow(fields, render, node, out, step);
          LawDetermines(fields, render, entries[i].value, out.entries[i].value);
        }
      }
      assert out.entries == walked;
    case Arr(items) =>
      var walked := WalkItems(fields, render, items);
      forall i | 0 <= i < |items| ensures out.items[i] == walked[i] {
        LawBelow(fields, render, node, out, Index(i));
        LawDetermines(fields, render, items[i], out.items[i]);
      }
      assert out.items == walked;
    case _ =>
  }

  lemma LawBelow(fields: set<string>, render: Renderer, node: Node, out: Node, step: Step)
    requires forall path :: LawAt(fields, render, node, out, path)
    requires Child(node, step).At? && Child(out, step).At? && !EntersMasked(fields, step)
    ensures forall path :: LawAt(fields, render, Child(node, step).node, Child(out, step).node, path)
  {
    forall path ensures LawAt(fields, render, Child(node, step).node, Child(out, step).node, path) {
      var longer := [step] + path;
      assert longer[1..] == path;
      assert LawAt(fields, render, node, out, longer);
    }
  }

  /** The masking law: the walk's result is the one payload that obeys the law at every path. */
  lemma MaskingLaw(fields: set<string>, render: Renderer, node: Node, out: Node)
    ensures out == Walk(fields, render, node) <==> forall path :: LawAt(fields, render, node, out, path)
  {
    if out == Walk(fields, render, node) {
      forall path ensures LawAt(fields, render, node, out, path) {
        WalkLaw(fields, render, node, path);
      }
    } else if forall path :: LawAt(fields, render, node, out, path) {
      LawDetermines(fields, render, node, out);
    }
  }

  // ---- What the walk leaves alone ------------------------------------------------------------------------------

  /** A text of at least three characters that are stars, except the first and the last. */
  predicate LooksMasked(v: Node) {
    v.Str? && |v.text| > 2 && forall i :: 0 < i < |v.text| - 1 ==> v.text[i] == '*'
  }

  lemma LooksMaskedIff(render: Renderer, v: Node)
    ensures MaskValue(render, v) == v <==> LooksMasked(v)
    ensures LooksMasked(MaskValue(render, v))
  {
    if LooksMasked(v) {
      assert MaskText(v.text) == v.text;
    }
  }

  /** Every masked key that can be reached without passing another one already holds a masked text. */
  predicate Settled(fields: set<string>, node: Node)
    decreases node
  {
    match node
    case Obj(entries) =>
      forall e :: e in entries ==> if e.key in fields then LooksMasked(e.value) else Settled(fields, e.value)
    case Arr(items) => forall v :: v in items ==> Settled(fields, v)
    case _ => true
  }

  /** A payload is left alone exactly when all its reachable masked keys hold masked texts already. */
  lemma {:induction false} UnchangedIffSettled(fields: set<string>, render: Renderer, node: Node)
    ensures Walk(fields, render, node) == node <==> Settled(fields, node)
    decreases node
  {
    match node
    case Obj(entries) =>
      var walked := WalkEntries(fields, render, entries);
      forall i | 0 <= i < |entries|
        ensures walked[i] == entries[i] <==>
          if entries[i].key in fields then LooksMasked(entries[i].value) else Settled(fields, entries[i].value)
      {
        LooksMaskedIff(render, entries[i].value);
        UnchangedIffSettled(fields, render, entries[i].value);
      }
      assert walked == entries <==> forall i :: 0 <= i < |entries| ==> walked[i] == entries[i];
    case Arr(items) =>
      var walked := WalkItems(fields, render, items);
      forall i | 0 <= i < |items| ensures walked[i] == items[i] <==> Settled(fields, items[i]) {
        UnchangedIffSettled(fields, render, items[i]);
      }
      assert walked == items <==> forall i :: 0 <= i < |items| ==> walked[i] == items[i];
    case _ =>
  }

  /** No masked key can be reached. */
  predicate Clean(fields: set<string>, node: Node)
    decreases node
  {
    match node
    case Obj(entries) => forall e :: e in entries ==> e.key !in fields && Clean(fields, e.value)
    case Arr(items) => forall v :: v in items ==> Clean(fields, v)
    case _ => true
  }

  lemma {:induction false} CleanIsSettled(fields: set<string>, node: Node)
    requires Clean(fields, node)
    ensures Settled(fields, node)
    decreases node
  {
    match node
    case Obj(entries) => forall e | e in entries ensures Settled(fields, e.value) { CleanIsSettled(fields, e.value); }
    case Arr(items) => forall v | v in items ensures Settled(fields, v) { CleanIsSettled(fields, v); }
    case _ =>
  }

  lemma CleanUnchanged(fields: set<string>, render: Renderer, node: Node)
    requires Clean(fields, node)
    ensures Walk(fields, render, node) == node
  {
    CleanIsSettled(fields, node);
    UnchangedIffSettled(fields, render, node);
  }

  lemma {:induction false} WalkSettles(fields: set<string>, render: Renderer, node: Node)
    ensures Settled(fields, Walk(fields, render, node))
    decreases node
  {
    match node
    case Obj(entries) =>
      forall i | 0 <= i < |entries| && entries[i].key !in fields
        ensures Settled(fields, Walk(fields, render, entries[i].value))
      {
        WalkSettles(fields, render, entries[i].value);
      }
      forall i | 0 <= i < |entries| ensures LooksMasked(MaskValue(render, entries[i].value)) {
        LooksMaskedIff(render, entries[i].value);
      }
    case Arr(items) =>
      forall i | 0 <= i < |items| ensures Settled(fields, Walk(fields, render, items[i])) {
        WalkSettles(fields, render, items[i]);
      }
    case _ =>
  }

  lemma WalkIdempotent(fields: set<string>, render: Renderer, node: Node)
    ensures Walk(fields, render, Walk(fields, render, node)) == Walk(fields, render, node)
  {
    WalkSettles(fields, render, node);
    UnchangedIffSettled(fields, render, Walk(fields, render, node));
  }

  // ---- Applying a decision --------------------------------------------------------------------------------------

  function ApplyAbacMasking(render: Renderer, payload: Node, d: Option<Decision>): Node {
    if d.None? || !d.value.allowed then payload
    else if d.value.level == NoMask || d.value.maskedFields == {} then payload
    else Walk(d.value.maskedFields, render, payload)
  }

  /** A decision that masks nothing: none at all, a denial, or one without level or fields. */
  predicate MasksNothing(d: Option<Decision>) {
    d.None? || !d.value.allowed || d.value.level == NoMask || d.value.maskedFields == {}
  }

  /** What a response becomes, for every payload and every decision: itself if the decision masks nothing, and
      otherwise the one payload that obeys the law for the decision's fields at every path. */
  lemma ApplyLaw(render: Renderer, payload: Node, d: Option<Decision>, out: Node)
    ensures out == ApplyAbacMasking(render, payload, d) <==>
      if MasksNothing(d) then out == payload
      else forall path :: LawAt(d.value.maskedFields, render, payload, out, path)
  {
    if !MasksNothing(d) {
      MaskingLaw(d.value.maskedFields, render, payload, out);
    }
  }

  /** Masking a response twice under the same decision is masking it once. */
  lemma ApplyIdempotent(render: Renderer, payload: Node, d: Option<Decision>)
    ensures ApplyAbacMasking(render, ApplyAbacMasking(render, payload, d), d) == ApplyAbacMasking(render, payload, d)
  {
    if d.Some? {
      WalkIdempotent(d.value.maskedFields, render, payload);
    }
  }

  // ---- The row-wise form ------------------------------------------------------------------------------------------

  type DataRow = seq<Entry>

  function MaskColumns(render: Renderer, fields: set<string>, row: DataRow): (r: DataRow)
    ensures |r| == |row|
    ensures forall i :: 0 <= i < |row| ==>
      r[i] == if row[i].key in fields then Entry(row[i].key, MaskValue(render, row[i].value)) else row[i]
  {
    if row == [] then []
    else [if row[0].key in fields then Entry(row[0].key, MaskValue(render, row[0].value)) else row[0]]
         + MaskColumns(render, fields, row[1..])
  }

  function MaskWholeRow(row: DataRow): (r: DataRow)
    ensures |r| == |row| && forall i :: 0 <= i < |row| ==> r[i] == Entry(row[i].key, Str(Stars(3)))
  {
    if row == [] then [] else [Entry(row[0].key, Str(Stars(3)))] + MaskWholeRow(row[1..])
  }

  /** What happens to row i: with selected rows these are blanked and the others kept, otherwise every row has its
      masked columns replaced. */
  function MaskRow(render: Renderer, d: Decision, fields: set<string>, i: nat, row: DataRow): DataRow {
    if d.level == Row && d.maskedRows != [] then (if i in d.maskedRows then MaskWholeRow(row) else row)
    else MaskColumns(render, fields, row)
  }

  method MaskData(render: Renderer, data: seq<DataRow>, d: Decision, sensitiveColumns: set<string>)
    returns (r: seq<DataRow>)
    ensures r == MaskedRows(render, data, d, sensitiveColumns)
  {
    if !d.allowed {
      return [];
    }
    if d.level == NoMask {
      return data;
    }
    var fields := if d.maskedFields != {} then d.maskedFields else sensitiveColumns;
    r := [];
    for i := 0 to |data|
      invariant |r| == i && forall k :: 0 <= k < i ==> r[k] == MaskRow(render, d, fields, k, data[k])
    {
      if d.level == Row {
        if d.maskedRows != [] && i in d.maskedRows {
          r := r + [MaskWholeRow(data[i])];
        } else if d.maskedRows == [] {
          r := r + [MaskColumns(render, fields, data[i])];
        } else {
          r := r + [data[i]];
        }
      } else {
        r := r + [MaskColumns(render, fields, data[i])];
      }
    }
  }

  ghost function MaskedRows(render: Renderer, data: seq<DataRow>, d: Decision, sensitiveColumns: set<string>)
    : seq<DataRow>
  {
    if !d.allowed then []
    else if d.level == NoMask then data
    else
      var fields := if d.maskedFields != {} then d.maskedFields else sensitiveColumns;
      seq(|data|, i requires 0 <= i < |data| => MaskRow(render, d, fields, i, data[i]))
  }

  /** The row-wise form, cell by cell: nothing on a denial, the data itself without a level, blanked rows where rows
      are selected, and masked columns otherwise; rows, columns and their order stay. */
  lemma RowsLaw(render: Renderer, data: seq<DataRow>, d: Decision, sensitiveColumns: set<string>, i: nat, j: nat)
    requires i < |data| && j < |data[i]|
    ensures var r := MaskedRows(render, data, d, sensitiveColumns);
      var fields := if d.maskedFields != {} then d.maskedFields else sensitiveColumns;
      var cell, selected := data[i][j], d.level == Row && d.maskedRows != [];
      && (!d.allowed ==> r == [])
      && (d.allowed ==> |r| == |data| && |r[i]| == |data[i]| && r[i][j].key == cell.key)
      && (d.allowed && d.level == NoMask ==> r[i][j] == cell)
      && (d.allowed && selected ==> r[i][j].value == if i in d.maskedRows then Str("***") else cell.value)
      && (d.allowed && d.level != NoMask && !selected ==>
            r[i][j].value == if cell.key in fields then MaskValue(render, cell.value) else cell.value)
  {
    assert Stars(3) == "***";
  }

  function AsPayload(data: seq<DataRow>): (p: Node)
    ensures p.Arr? && |p.items| == |data| && forall i :: 0 <= i < |data| ==> p.items[i] == Obj(data[i])
  {
    Arr(seq(|data|, i requires 0 <= i < |data| => Obj(data[i])))
  }

  /** A decision that the engine hands out for an allowed access. */
  ghost predicate FromEngine(d: Decision) {
    exists s, r, e :: Granted(d, s, r, e)
  }

  ghost predicate Granted(d: Decision, s: Subject, r: Resource, e: Environment) {
    && d.allowed && d.maskedRows == [] && d.maskedFields == Masked(s, r, e, |RULES|)
    && d.level == LevelAfter(s, r, e, |RULES|)
  }

  lemma EngineLevels(d: Decision)
    requires FromEngine(d)
    ensures d.allowed && d.level != Row && (d.level == NoMask <==> d.maskedFields == {})
  {
    var s, r, e :| Granted(d, s, r, e);
    LevelIffFields(s, r, e, |RULES|);
  }

  /** No value under an unmasked column holds a masked key that still has to be masked. */
  predicate ColumnsSettled(fields: set<string>, row: DataRow) {
    forall j :: 0 <= j < |row| && row[j].key !in fields ==> Settled(fields, row[j].value)
  }

  lemma RowAgreesIff(render: Renderer, fields: set<string>, row: DataRow)
    ensures WalkEntries(fields, render, row) == MaskColumns(render, fields, row) <==> ColumnsSettled(fields, row)
  {
    var a, b := WalkEntries(fields, render, row), MaskColumns(render, fields, row);
    forall j | 0 <= j < |row| ensures a[j] == b[j] <==> (row[j].key !in fields ==> Settled(fields, row[j].value)) {
      UnchangedIffSettled(fields, render, row[j].value);
    }
    assert a == b <==> forall j :: 0 <= j < |row| ==> a[j] == b[j];
  }

  /** For every decision the engine grants, the two forms agree on rows exactly when the rows hide nothing to mask
      below their unmasked columns; in particular on all flat rows. */
  lemma FormsAgreeIff(render: Renderer, data: seq<DataRow>, d: Decision, sensitiveColumns: set<string>)
    requires FromEngine(d)
    ensures ApplyAbacMasking(render, AsPayload(data), Some(d))
           == AsPayload(MaskedRows(render, data, d, sensitiveColumns))
       <==> d.level == NoMask || forall i :: 0 <= i < |data| ==> ColumnsSettled(d.maskedFields, data[i])
  {
    EngineLevels(d);
    if d.level != NoMask {
      var rows := MaskedRows(render, data, d, sensitiveColumns);
      assert forall i :: 0 <= i < |data| ==> rows[i] == MaskColumns(render, d.maskedFields, data[i]);
      RowsAgreeIff(render, d.maskedFields, data, rows);
    }
  }

  lemma RowsAgreeIff(render: Renderer, fields: set<string>, data: seq<DataRow>, rows: seq<DataRow>)
    requires |rows| == |data| && forall i :: 0 <= i < |data| ==> rows[i] == MaskColumns(render, fields, data[i])
    ensures Walk(fields, render, AsPayload(data)) == AsPayload(rows)
       <==> forall i :: 0 <= i < |data| ==> ColumnsSettled(fields, data[i])
  {
    var walked, items := WalkItems(fields, render, AsPayload(data).items), AsPayload(rows).items;
    forall i | 0 <= i < |data| ensures walked[i] == items[i] <==> ColumnsSettled(fields, data[i]) {
      assert walked[i] == Obj(WalkEntries(fields, render, data[i])) && items[i] == Obj(rows[i]);
      RowAgreesIff(render, fields, data[i]);
    }
    assert walked == items <==> forall i :: 0 <= i < |data| ==> walked[i] == items[i];
  }

  lemma FlatRowsAgree(render: Renderer, data: seq<DataRow>, d: Decision, sensitiveColumns: set<string>)
    requires FromEngine(d)
    requires forall i, j :: 0 <= i < |data| && 0 <= j < |data[i]| ==> !data[i][j].value.Obj? && !data[i][j].value.Arr?
    ensures ApplyAbacMasking(render, AsPayload(data), Some(d))
         == AsPayload(MaskedRows(render, data, d, sensitiveColumns))
  {
    FormsAgreeIff(render, data, d, sensitiveColumns);
  }

  /** Under a denial the two forms part: the payload passes through untouched, while no row is returned. */
  lemma DeniedFormsAgreeIff(render: Renderer, data: seq<DataRow>, d: Decision, sensitiveColumns: set<string>)
    requires !d.allowed
    ensures ApplyAbacMasking(render, AsPayload(data), Some(d))
           == AsPayload(MaskedRows(render, data, d, sensitiveColumns))
       <==> data == []
  {
    assert |AsPayload(data).items| == |data|;
  }
}
