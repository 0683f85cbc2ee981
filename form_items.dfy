/** The item importer of a PsychoPy `Form`: the list of item dictionaries
    handed to the form is normalised step by step (legacy key names renamed,
    required headers checked, defaults filled in, comma-separated options
    split, response types checked, order optionally shuffled). */
module FormItems {
  import opened Outcomes
  import PyStrings

  /** `_REQUIRED`, the sentinel default of a field that has none. */
  const REQUIRED: int := -12349872349873

  /** The response control stored under `responseCtrl` by the layout. */
  datatype Ctrl =
    | NoCtrl                                          // `None`, for headings and descriptions
    | Rating(rating: Option<real>, rt: Option<real>)  // a Slider: getRating() and getRT()
    | Text(text: string)                              // a TextBox2: `.text`, no getRT()

  /** The Python values an item dictionary holds. */
  datatype Value =
    | VNone
    | VBool(b: bool)
    | VInt(i: int)
    | VReal(r: real)
    | VStr(s: string)
    | VList(elems: seq<Value>)
    | VTuple(elems: seq<Value>)
    | VCtrl(ctrl: Ctrl)
    | VQuestion(x: real, y: real)   // the question text box, by its position

  type Item = map<string, Value>

  /** The keys of `_knownFields`, in the dictionary's order. */
  const FieldOrder: seq<string> :=
    ["index", "itemText", "itemColor", "itemWidth", "type", "options",
     "ticks", "tickLabels", "responseWidth", "responseColor", "layout"]

  /** The fields the layout reads are among the known ones. */
  lemma LayoutFieldsKnown()
    ensures "itemWidth" in FieldOrder && "type" in FieldOrder && "options" in FieldOrder
    ensures "responseWidth" in FieldOrder && "layout" in FieldOrder
  {
    assert FieldOrder[3] == "itemWidth" && FieldOrder[4] == "type" && FieldOrder[5] == "options";
    assert FieldOrder[8] == "responseWidth" && FieldOrder[10] == "layout";
  }

  const DefaultOptions: Value := VTuple([VStr("Yes"), VStr("No")])
  const DefaultTicks: Value :=
    VTuple([VInt(1), VInt(2), VInt(3), VInt(4), VInt(5), VInt(6), VInt(7)])

  /** The module-level `_knownFields` table. Its only entry that ever
      changes is `index`, which the importer overwrites with each item's
      position; the table is therefore represented by that one value. */
  datatype FieldTable = FieldTable(index: Value)
  {
    function Default(header: string): Value
    {
      if header == "index" then index
      else if header == "itemText" || header == "type" then VInt(REQUIRED)
      else if header == "itemColor" || header == "responseColor" then VStr("white")
      else if header == "itemWidth" || header == "responseWidth" then VReal(0.8)
      else if header == "options" then DefaultOptions
      else if header == "ticks" then DefaultTicks
      else if header == "layout" then VStr("horiz")
      else VNone  // "tickLabels"
    }
  }

  /** `_knownFields` as the module defines it, before any import. */
  const InitialTable: FieldTable := FieldTable(VNone)

  /** `_knownRespTypes`. */
  const KnownRespTypes: set<string> :=
    {"heading", "description", "rating", "slider", "free text", "choice", "radio"}

  /** `_synonyms`, as (current key, legacy key) pairs in the dictionary's order. */
  const Synonyms: seq<(string, string)> :=
    [("itemText", "questionText"), ("choice", "radio"), ("free text", "textBox")]

  /** The current key of each legacy key. */
  const LegacyOf: map<string, string> :=
    map["itemText" := "questionText", "choice" := "radio", "free text" := "textBox"]

  datatype ImportError =
    | MissingHeader(header: string, found: set<string>)  // ValueError
    | UnhashableType(typ: Value)                         // TypeError from set([type])
    | InvalidType(typ: Value)                            // ValueError

  // ---------------------------------------------------------------------
  // Field names

  /** The union of the keys of all items. */
  function FieldNames(items: seq<Item>): set<string>
  {
    set i, k | 0 <= i < |items| && k in items[i] :: k
  }

  lemma KeysInFieldNames(items: seq<Item>)
    ensures forall i :: 0 <= i < |items| ==> items[i].Keys <= FieldNames(items)
  {
    forall i, k | 0 <= i < |items| && k in items[i] ensures k in FieldNames(items) {
    }
  }

  method CollectFieldNames(items: seq<Item>) returns (names: set<string>)
    ensures names == FieldNames(items)
  {
    names := {};
    for i := 0 to |items|
      invariant names == set m, k | 0 <= m < i && k in items[m] :: k
    {
      names := names + items[i].Keys;
    }
  }

  // ---------------------------------------------------------------------
  // _checkSynonyms

  /** One rename: the legacy key's value moves to the current key. */
  function Rename(item: Item, field: string, legacy: string): Item
  {
    if legacy in item then item[field := item[legacy]] - {legacy} else item
  }

  /** The first `p` renames of `_synonyms`, in order. */
  function RenameThrough(item: Item, p: nat): Item
    requires p <= |Synonyms|
  {
    if p == 0 then item
    else Rename(RenameThrough(item, p - 1), Synonyms[p - 1].0, Synonyms[p - 1].1)
  }

  function RenameAll(item: Item): Item
  {
    RenameThrough(item, |Synonyms|)
  }

  /** The current keys some item held under their legacy name, among the
      first `p` pairs. */
  function ReplacedThrough(items: seq<Item>, p: nat): set<string>
    requires p <= |Synonyms|
  {
    set q, i | 0 <= q < p && 0 <= i < |items| && Synonyms[q].1 in items[i] :: Synonyms[q].0
  }

  /** The legacy names of the given current names. */
  function LegacyNames(fields: set<string>): set<string>
  {
    set f | f in fields && f in LegacyOf :: LegacyOf[f]
  }

  /** The field-name set `_checkSynonyms` leaves behind. */
  function RenamedFieldNames(items: seq<Item>, fieldNames: set<string>): set<string>
  {
    var replaced := ReplacedThrough(items, |Synonyms|);
    (fieldNames + replaced) - LegacyNames(replaced)
  }

  /** Renaming with the first `p` pairs leaves a later pair's legacy key,
      and its value, where they were. */
  lemma {:induction false} LaterLegacyUntouched(item: Item, p: nat, q: nat)
    requires p <= q < |Synonyms|
    ensures (Synonyms[q].1 in RenameThrough(item, p)) == (Synonyms[q].1 in item)
    ensures Synonyms[q].1 in item ==> RenameThrough(item, p)[Synonyms[q].1] == item[Synonyms[q].1]
  {
    if p > 0 {
      LaterLegacyUntouched(item, p - 1, q);
    }
  }

  /** The inner loop of `_checkSynonyms`: one pair applied to every item. */
  method RenameInEach(items: seq<Item>, field: string, legacy: string)
    returns (renamed: seq<Item>, found: bool)
    ensures |renamed| == |items|
    ensures forall i :: 0 <= i < |items| ==> renamed[i] == Rename(items[i], field, legacy)
    ensures found <==> exists i :: 0 <= i < |items| && legacy in items[i]
  {
    renamed := items;
    found := false;
    for j := 0 to |items|
      invariant |renamed| == |items|
      invariant forall i :: 0 <= i < j ==> renamed[i] == Rename(items[i], field, legacy)
      invariant forall i :: j <= i < |items| ==> renamed[i] == items[i]
      invariant found <==> exists i :: 0 <= i < j && legacy in items[i]
    {
      if legacy in renamed[j] {
        renamed := renamed[j := renamed[j][field := renamed[j][legacy]] - {legacy}];
        found := true;
      }
    }
  }

  /** The second loop of `_checkSynonyms`: each replaced field joins the
      field names and its legacy name leaves them. */
  method SwapNames(fieldNames: set<string>, replaced: set<string>) returns (names: set<string>)
    requires replaced <= LegacyOf.Keys
    requires forall f :: f in replaced ==> LegacyOf[f] in fieldNames  // else set.remove raises
    ensures names == (fieldNames + replaced) - LegacyNames(replaced)
  {
    names := fieldNames;
    var todo := replaced;
    ghost var done: set<string> := {};
    while todo != {}
      invariant todo <= replaced && done == replaced - todo
      invariant forall f :: f in todo ==> LegacyOf[f] in names
      invariant names == (fieldNames + done) - LegacyNames(done)
      decreases todo
    {
      var field :| field in todo;
      SwapStep(fieldNames, done, field);
      names := names + {field};
      names := names - {LegacyOf[field]};
      todo := todo - {field};
      done := done + {field};
    }
    assert done == replaced;
  }

  /** One more swap: the field joins the names and its legacy name leaves. */
  lemma SwapStep(fieldNames: set<string>, done: set<string>, field: string)
    requires field in LegacyOf && done <= LegacyOf.Keys
    ensures (fieldNames + done) - LegacyNames(done) + {field} - {LegacyOf[field]}
            == (fieldNames + (done + {field})) - LegacyNames(done + {field})
  {
    SynonymFacts();
    assert LegacyNames(done + {field}) == LegacyNames(done) + {LegacyOf[field]};
  }

  /** `_checkSynonyms(items, fieldNames)`: the items with every legacy key
      renamed, and the updated field-name set. */
  method CheckSynonyms(items: seq<Item>, fieldNames: set<string>)
    returns (renamed: seq<Item>, names: set<string>)
    requires forall i :: 0 <= i < |items| ==> items[i].Keys <= fieldNames
    ensures |renamed| == |items|
    ensures forall i :: 0 <= i < |items| ==> renamed[i] == RenameAll(items[i])
    ensures names == RenamedFieldNames(items, fieldNames)
  {
    renamed := items;
    var replaced: set<string> := {};
    for p := 0 to |Synonyms|
      invariant |renamed| == |items|
      invariant forall i :: 0 <= i < |items| ==> renamed[i] == RenameThrough(items[i], p)
      invariant replaced == ReplacedThrough(items, p)
    {
      var (field, legacy) := Synonyms[p];
      var found;
      ghost var before := renamed;
      renamed, found := RenameInEach(renamed, field, legacy);
      forall i | 0 <= i < |items|
        ensures (legacy in before[i]) == (legacy in items[i])
      {
        LaterLegacyUntouched(items[i], p, p);
      }
      if found {
        replaced := replaced + {field};
      }
      assert ReplacedThrough(items, p + 1)
             == ReplacedThrough(items, p)
                + (if exists i :: 0 <= i < |items| && legacy in items[i] then {field} else {});
    }
    names := SwapNames(fieldNames, replaced);
  }

  /** What renaming does to one item: each legacy key is gone, its current
      key holds the legacy value, and every other key is as it was. */
  lemma RenameAllEffect(item: Item)
    ensures forall q :: 0 <= q < |Synonyms| ==> Synonyms[q].1 !in RenameAll(item)
    ensures forall q :: 0 <= q < |Synonyms| && Synonyms[q].1 in item ==>
              Synonyms[q].0 in RenameAll(item) && RenameAll(item)[Synonyms[q].0] == item[Synonyms[q].1]
    ensures forall k :: k !in LegacyOf.Keys && k !in LegacyOf.Values ==>
              (k in RenameAll(item) <==> k in item) && (k in item ==> RenameAll(item)[k] == item[k])
    ensures forall k :: k in LegacyOf && LegacyOf[k] !in item ==>
              (k in RenameAll(item) <==> k in item) && (k in item ==> RenameAll(item)[k] == item[k])
  {
    RenameAllMoves(item);
    RenameAllKeeps(item);
  }

  lemma RenameAllMoves(item: Item)
    ensures forall q :: 0 <= q < |Synonyms| ==> Synonyms[q].1 !in RenameAll(item)
    ensures forall q :: 0 <= q < |Synonyms| && Synonyms[q].1 in item ==>
              Synonyms[q].0 in RenameAll(item) && RenameAll(item)[Synonyms[q].0] == item[Synonyms[q].1]
  {
    SynonymFacts();
    RenameAllSteps(item);
    var r := RenameAll(item);
    var r1 := Rename(item, "itemText", "questionText");
    var r2 := Rename(r1, "choice", "radio");
    RenameEffect(item, "itemText", "questionText");
    RenameEffect(r1, "choice", "radio");
    RenameEffect(r2, "free text", "textBox");
    forall q | 0 <= q < |Synonyms|
      ensures Synonyms[q].1 !in r
      ensures Synonyms[q].1 in item ==> Synonyms[q].0 in r && r[Synonyms[q].0] == item[Synonyms[q].1]
    {
    }
  }

  lemma RenameAllKeeps(item: Item)
    ensures forall k :: k !in LegacyOf.Keys && k !in LegacyOf.Values ==>
              (k in RenameAll(item) <==> k in item) && (k in item ==> RenameAll(item)[k] == item[k])
    ensures forall k :: k in LegacyOf && LegacyOf[k] !in item ==>
              (k in RenameAll(item) <==> k in item) && (k in item ==> RenameAll(item)[k] == item[k])
  {
    SynonymFacts();
    forall k | k !in LegacyOf.Keys && k !in LegacyOf.Values
      ensures (k in RenameAll(item) <==> k in item) && (k in item ==> RenameAll(item)[k] == item[k])
    {
      RenameAllKeepsKey(item, k);
    }
    forall k | k in LegacyOf && LegacyOf[k] !in item
      ensures (k in RenameAll(item) <==> k in item) && (k in item ==> RenameAll(item)[k] == item[k])
    {
      RenameAllKeepsKey(item, k);
    }
  }

  /** A key that is no legacy key, and whose legacy key (if it has one)
      is absent, keeps its value through the renames. */
  lemma RenameAllKeepsKey(item: Item, k: string)
    requires k != "questionText" && k != "radio" && k != "textBox"
    requires k == "itemText" ==> "questionText" !in item
    requires k == "choice" ==> "radio" !in item
    requires k == "free text" ==> "textBox" !in item
    ensures (k in RenameAll(item) <==> k in item) && (k in item ==> RenameAll(item)[k] == item[k])
  {
    RenameAllSteps(item);
    var r1 := Rename(item, "itemText", "questionText");
    var r2 := Rename(r1, "choice", "radio");
    RenameEffect(item, "itemText", "questionText");
    RenameEffect(r1, "choice", "radio");
    RenameEffect(r2, "free text", "textBox");
  }

  lemma RenameAllSteps(item: Item)
    ensures RenameAll(item)
            == Rename(Rename(Rename(item, "itemText", "questionText"), "choice", "radio"), "free text", "textBox")
  {
    SynonymFacts();
    assert RenameThrough(item, 0) == item;
    assert RenameThrough(item, 1) == Rename(item, "itemText", "questionText");
    assert RenameThrough(item, 2) == Rename(RenameThrough(item, 1), "choice", "radio");
  }

  /** One rename: the legacy key is gone, the current key holds its value
      if it was there, and every other key is as it was. */
  lemma RenameEffect(item: Item, field: string, legacy: string)
    requires field != legacy
    ensures var r := Rename(item, field, legacy);
            && legacy !in r
            && (legacy in item ==> field in r && r[field] == item[legacy])
            && (legacy !in item ==> r == item)
            && (forall k :: k != field && k != legacy ==> (k in r <==> k in item) && (k in item ==> r[k] == item[k]))
  {
  }

  // ---------------------------------------------------------------------
  // _checkRequiredFields

  predicate IsRequired(table: FieldTable, header: string)
  {
    table.Default(header) == VInt(REQUIRED)
  }

  /** Which fields of the table are required: `itemText` and `type`, and
      `index` only if the table's `index` entry holds the sentinel. */
  lemma RequiredFields(table: FieldTable)
    ensures forall k :: 0 <= k < |FieldOrder| ==>
              (IsRequired(table, FieldOrder[k]) <==>
                 k == 1 || k == 4 || (k == 0 && table.index == VInt(REQUIRED)))
  {
  }

  /** The header `_checkRequiredFields` complains about, if any: the first
      field of the table that is required and absent from the names. */
  function FirstMissingRequired(table: FieldTable, names: set<string>): Option<string>
  {
    if IsRequired(table, "index") && "index" !in names then Some("index")
    else if "itemText" !in names then Some("itemText")
    else if "type" !in names then Some("type")
    else None
  }

  /** `FirstMissingRequired` is the first required field of the table's
      order that is absent, and none exactly when all are present. */
  lemma FirstMissingRequiredMeaning(table: FieldTable, names: set<string>)
    ensures var r := FirstMissingRequired(table, names);
            && (r.None? <==> forall k :: 0 <= k < |FieldOrder| && IsRequired(table, FieldOrder[k]) ==> FieldOrder[k] in names)
            && (r.Some? ==> exists k :: (0 <= k < |FieldOrder| && r.value == FieldOrder[k]
                                         && IsRequired(table, FieldOrder[k]) && FieldOrder[k] !in names
                                         && forall m :: 0 <= m < k && IsRequired(table, FieldOrder[m]) ==> FieldOrder[m] in names))
  {
    RequiredFields(table);
    assert FieldOrder[0] == "index" && FieldOrder[1] == "itemText" && FieldOrder[4] == "type";
  }

  /** A table reached by importing (its `index` is `None` or a position)
      requires exactly `itemText` and `type`. */
  lemma RequiredHeaders(table: FieldTable, names: set<string>)
    requires table.index == VNone || (table.index.VInt? && table.index.i >= 0)
    ensures FirstMissingRequired(table, names).None? <==> "itemText" in names && "type" in names
    ensures "itemText" !in names ==> FirstMissingRequired(table, names) == Some("itemText")
  {
  }

  method CheckRequiredFields(table: FieldTable, names: set<string>) returns (missing: Option<string>)
    ensures missing == FirstMissingRequired(table, names)
  {
    FirstMissingRequiredMeaning(table, names);
    for k := 0 to |FieldOrder|
      invariant forall m :: 0 <= m < k && IsRequired(table, FieldOrder[m]) ==> FieldOrder[m] in names
    {
      var header := FieldOrder[k];
      if table.Default(header) == VInt(REQUIRED) && header !in names {
        return Some(header);
      }
    }
    return None;
  }

  // ---------------------------------------------------------------------
  // _addDefaultItems

  /** `isPresent`: the key is there and its value is neither None nor ''. */
  predicate IsPresent(item: Item, field: string)
  {
    field in item && item[field] != VNone && item[field] != VStr("")
  }

  /** `header.replace('item', 'question')` on the headers of the table. */
  function LegacyHeader(header: string): string
  {
    if header == "itemText" then "questionText"
    else if header == "itemColor" then "questionColor"
    else if header == "itemWidth" then "questionWidth"
    else header
  }

  /** No header holds an `m`, so `item` occurs in it at most as a prefix. */
  lemma {:induction false} ReplaceWithoutM(h: string)
    requires 'm' !in h
    ensures PyStrings.Replace(h, "item", "question") == h
  {
    forall i: nat | i <= |h| ensures !PyStrings.OccursAt(h, "item", i) {
      if i + 4 <= |h| {
        assert h[i..i + 4][3] == h[i + 3];
      }
    }
    PyStrings.ReplaceAbsent(h, "item", "question");
  }

  lemma ReplaceItemPrefix(t: string)
    requires 'm' !in t
    ensures PyStrings.Replace("item" + t, "item", "question") == "question" + t
  {
    var s := "item" + t;
    assert s[..4] == "item";
    assert s[4..] == t;
    ReplaceWithoutM(t);
  }

  /** The table of legacy headers is what `header.replace('item', 'question')`
      gives on every header of `_knownFields`. */
  lemma LegacyHeaderIsReplace(h: string)
    requires h in FieldOrder
    ensures LegacyHeader(h) == PyStrings.Replace(h, "item", "question")
  {
    if h == "itemText" {
      LegacyPrefixed(h, "Text");
    } else if h == "itemColor" {
      LegacyPrefixed(h, "Color");
    } else if h == "itemWidth" {
      LegacyPrefixed(h, "Width");
    } else {
      assert 'm' !in h;
      ReplaceWithoutM(h);
    }
  }

  /** A header `item…` whose table entry is `question…` agrees with the
      replace. */
  lemma LegacyPrefixed(h: string, t: string)
    requires h == "item" + t && LegacyHeader(h) == "question" + t && 'm' !in t
    ensures LegacyHeader(h) == PyStrings.Replace(h, "item", "question")
  {
    ReplaceItemPrefix(t);
  }

  /** One step of the inner loop, for the item at position `index`. */
  function FillStep(item: Item, header: string, index: nat): Item
  {
    if IsPresent(item, header) then item
    else if IsPresent(item, LegacyHeader(header)) then item[header := item[LegacyHeader(header)]]
    else item[header := FieldTable(VInt(index)).Default(header)]
  }

  /** The inner loop over `headers`, in order. */
  function FillThrough(item: Item, index: nat, headers: seq<string>): Item
    decreases |headers|
  {
    if |headers| == 0 then item
    else FillStep(FillThrough(item, index, headers[..|headers| - 1]), headers[|headers| - 1], index)
  }

  function WithDefaults(item: Item, index: nat): (r: Item)
    ensures forall h :: h in FieldOrder ==> h in r
    ensures item.Keys <= r.Keys
  {
    FieldOrderDistinct();
    FillThroughEffect(item, index, FieldOrder);
    FillThrough(item, index, FieldOrder)
  }

  /** `_addDefaultItems(items)`, together with the value the shared
      table's `index` entry is left holding. */
  method AddDefaultItems(items: seq<Item>, table: FieldTable)
    returns (filled: seq<Item>, tableOut: FieldTable)
    ensures |filled| == |items|
    ensures forall i :: 0 <= i < |items| ==> filled[i] == WithDefaults(items[i], i)
    ensures tableOut == if |items| == 0 then table else FieldTable(VInt(|items| - 1))
  {
    filled := items;
    tableOut := table;
    for i := 0 to |items|
      invariant |filled| == |items|
      invariant forall m :: 0 <= m < i ==> filled[m] == WithDefaults(items[m], m)
      invariant forall m :: i <= m < |items| ==> filled[m] == items[m]
      invariant tableOut == if i == 0 then table else FieldTable(VInt(i - 1))
    {
      tableOut := FieldTable(VInt(i));
      var item := filled[i];
      for k := 0 to |FieldOrder|
        invariant item == FillThrough(items[i], i, FieldOrder[..k])
      {
        FillThroughNext(items[i], i, FieldOrder, k);
        var header := FieldOrder[k];
        if !IsPresent(item, header) {
          var oldHeader := LegacyHeader(header);
          if IsPresent(item, oldHeader) {
            item := item[header := item[oldHeader]];
          } else {
            item := item[header := tableOut.Default(header)];
          }
        }
      }
      assert FieldOrder[..|FieldOrder|] == FieldOrder;
      filled := filled[i := item];
    }
  }

  /** One more header of the inner loop is one more step. */
  lemma FillThroughNext(item: Item, index: nat, headers: seq<string>, k: nat)
    requires k < |headers|
    ensures FillThrough(item, index, headers[..k + 1]) == FillStep(FillThrough(item, index, headers[..k]), headers[k], index)
  {
    assert headers[..k + 1][..k] == headers[..k];
  }

  /** What filling a field's default gives for the item at `index`. */
  function FillValue(item: Item, header: string, index: nat): Value
  {
    if IsPresent(item, header) then item[header]
    else if IsPresent(item, LegacyHeader(header)) then item[LegacyHeader(header)]
    else FieldTable(VInt(index)).Default(header)
  }

  /** No header repeats, and a legacy header is never another header. */
  predicate FillOrderOk(headers: seq<string>)
  {
    && (forall a, b :: 0 <= a < b < |headers| ==> headers[a] != headers[b])
    && (forall k :: 0 <= k < |headers| ==> LegacyHeader(headers[k]) == headers[k] || LegacyHeader(headers[k]) !in headers)
  }

  lemma FieldOrderDistinct()
    ensures FillOrderOk(FieldOrder)
  {
    forall a, b | 0 <= a < b < |FieldOrder| ensures FieldOrder[a] != FieldOrder[b] {
      assert |FieldOrder[a]| != |FieldOrder[b]| || FieldOrder[a][0] != FieldOrder[b][0]
             || FieldOrder[a][|FieldOrder[a]| - 5] != FieldOrder[b][|FieldOrder[b]| - 5];
    }
    forall k | 0 <= k < |FieldOrder|
      ensures LegacyHeader(FieldOrder[k]) == FieldOrder[k] || LegacyHeader(FieldOrder[k]) !in FieldOrder
    {
      if LegacyHeader(FieldOrder[k]) != FieldOrder[k] {
        assert LegacyHeader(FieldOrder[k])[0] == 'q';
        assert forall m :: 0 <= m < |FieldOrder| ==> FieldOrder[m][0] != 'q';
      }
    }
  }

  /** The steps over `headers` have put every one of them in place and
      left every other key alone. */
  lemma {:induction false} FillThroughEffect(item: Item, index: nat, headers: seq<string>)
    requires FillOrderOk(headers)
    ensures var r := FillThrough(item, index, headers);
            forall key :: (key in r <==> key in item || key in headers)
                          && (key in r ==> r[key] == if key in headers then FillValue(item, key, index) else item[key])
    decreases |headers|
  {
    if |headers| > 0 {
      var init := headers[..|headers| - 1];
      var h := headers[|headers| - 1];
      assert headers == init + [h];
      assert forall m :: 0 <= m < |init| ==> init[m] == headers[m];
      FillThroughEffect(item, index, init);
      assert h !in init;
      FillStepEffect(item, FillThrough(item, index, init), init, h, index);
    }
  }

  /** One step of the inner loop puts field `h` in place and leaves every
      other key alone. */
  lemma FillStepEffect(item: Item, prev: Item, done: seq<string>, h: string, index: nat)
    requires forall key :: (key in prev <==> key in item || key in done)
                           && (key in prev ==> prev[key] == if key in done then FillValue(item, key, index) else item[key])
    requires h !in done && (LegacyHeader(h) != h ==> LegacyHeader(h) !in done)
    ensures var r := FillStep(prev, h, index);
            forall key :: (key in r <==> key in item || key in done + [h])
                          && (key in r ==> r[key] == if key in done + [h] then FillValue(item, key, index) else item[key])
  {
    assert IsPresent(prev, h) == IsPresent(item, h);
    assert LegacyHeader(h) != h ==> IsPresent(prev, LegacyHeader(h)) == IsPresent(item, LegacyHeader(h));
  }

  /** After `_addDefaultItems`, every known field is present; a non-empty
      value is kept; a missing or empty one comes from the legacy
      `question...` key when that is non-empty, and otherwise from the
      table, whose `index` is the item's position. Other keys are kept. */
  lemma WithDefaultsEffect(item: Item, index: nat)
    ensures var r := WithDefaults(item, index);
            && (forall h :: h in FieldOrder ==> h in r)
            && (forall h :: h in FieldOrder && IsPresent(item, h) ==> r[h] == item[h])
            && (forall h :: h in FieldOrder && !IsPresent(item, h) && IsPresent(item, LegacyHeader(h)) ==>
                  r[h] == item[LegacyHeader(h)])
            && (forall h :: h in FieldOrder && !IsPresent(item, h) && !IsPresent(item, LegacyHeader(h)) ==>
                  r[h] == FieldTable(VInt(index)).Default(h))
            && (forall key :: key !in FieldOrder ==> (key in r <==> key in item) && (key in item ==> r[key] == item[key]))
  {
    FieldOrderDistinct();
    FillThroughEffect(item, index, FieldOrder);
  }

  /** A missing `index` becomes the item's position. */
  lemma IndexDefaultsToPosition(item: Item, index: nat)
    requires !IsPresent(item, "index")
    ensures WithDefaults(item, index)["index"] == VInt(index)
  {
    assert FieldOrder[0] == "index";
    assert LegacyHeader("index") == "index" by { assert "index"[1] != "item"[1]; }
    WithDefaultsEffect(item, index);
  }

  // ---------------------------------------------------------------------
  // Splitting options

  function StrValues(xs: seq<string>): (r: seq<Value>)
    ensures |r| == |xs| && forall k :: 0 <= k < |xs| ==> r[k] == VStr(xs[k])
  {
    seq(|xs|, k requires 0 <= k < |xs| => VStr(xs[k]))
  }

  /** A string `options` becomes `options.split(',')`; anything else stays. */
  function SplitOptionsOf(item: Item): (r: Item)
    requires "options" in item
    ensures r.Keys == item.Keys
    ensures forall key :: key in item && key != "options" ==> r[key] == item[key]
    ensures !item["options"].VStr? ==> r == item
  {
    match item["options"]
    case VStr(s) => item["options" := VList(StrValues(PyStrings.Split(s, ',')))]
    case _ => item
  }

  /** The split keeps every character but the commas: joining the pieces
      with commas gives the string back, so nothing is trimmed. */
  lemma SplitOptionsKeepsText(item: Item)
    requires "options" in item && item["options"].VStr?
    ensures var r := SplitOptionsOf(item)["options"];
            r.VList? && |r.elems| > 0 && (forall k :: 0 <= k < |r.elems| ==> r.elems[k].VStr?)
            && PyStrings.Join(seq(|r.elems|, k requires 0 <= k < |r.elems| => r.elems[k].s), ',') == item["options"].s
            && SplitOptionsOf(item) - {"options"} == item - {"options"}
  {
    var s := item["options"].s;
    var xs := PyStrings.Split(s, ',');
    var r := SplitOptionsOf(item)["options"];
    assert seq(|r.elems|, k requires 0 <= k < |r.elems| => r.elems[k].s) == xs;
    PyStrings.JoinSplit(s, ',');
  }

  method SplitOptions(items: seq<Item>) returns (split: seq<Item>)
    requires forall i :: 0 <= i < |items| ==> "options" in items[i]
    ensures |split| == |items|
    ensures forall i :: 0 <= i < |items| ==> split[i] == SplitOptionsOf(items[i])
  {
    split := items;
    for i := 0 to |items|
      invariant |split| == |items|
      invariant forall m :: 0 <= m < i ==> split[m] == SplitOptionsOf(items[m])
      invariant forall m :: i <= m < |items| ==> split[m] == items[m]
    {
      if split[i]["options"].VStr? {
        split := split[i := split[i]["options" := VList(StrValues(PyStrings.Split(split[i]["options"].s, ',')))]];
      }
    }
  }

  // ---------------------------------------------------------------------
  // _checkTypes

  /** Whether Python can put the value in a set. */
  predicate Hashable(v: Value)
  {
    match v
    case VList(_) => false
    case VTuple(xs) => forall k | 0 <= k < |xs| :: Hashable(xs[k])
    case _ => true
  }

  /** `_checkTypes(t)`: `set([t]) - set(_knownRespTypes)` must be empty. */
  function TypeErrorOf(t: Value): (r: Option<ImportError>)
    ensures r.None? <==> t.VStr? && t.s in KnownRespTypes
  {
    if !Hashable(t) then Some(UnhashableType(t))
    else if t.VStr? && t.s in KnownRespTypes then None
    else Some(InvalidType(t))
  }

  /** The error of the first item, from position `i` on, whose type is
      rejected. */
  function FirstTypeErrorFrom(items: seq<Item>, i: nat): (r: Option<ImportError>)
    requires forall m :: 0 <= m < |items| ==> "type" in items[m]
    ensures r.Some? ==> !r.value.MissingHeader?
    decreases |items| - i
  {
    if i >= |items| then None
    else if TypeErrorOf(items[i]["type"]).Some? then TypeErrorOf(items[i]["type"])
    else FirstTypeErrorFrom(items, i + 1)
  }

  /** No error is raised exactly when every type is known; an error is the
      one of the first rejected item. */
  lemma {:induction false} FirstTypeErrorMeaning(items: seq<Item>, i: nat)
    requires forall m :: 0 <= m < |items| ==> "type" in items[m]
    ensures FirstTypeErrorFrom(items, i).None? <==>
            forall m :: i <= m < |items| ==> items[m]["type"].VStr? && items[m]["type"].s in KnownRespTypes
    ensures FirstTypeErrorFrom(items, i).Some? ==>
            exists m :: i <= m < |items| && FirstTypeErrorFrom(items, i) == TypeErrorOf(items[m]["type"])
                        && forall l :: i <= l < m ==> TypeErrorOf(items[l]["type"]).None?
    decreases |items| - i
  {
    if i < |items| {
      FirstTypeErrorMeaning(items, i + 1);
    }
  }

  method CheckTypes(items: seq<Item>) returns (err: Option<ImportError>)
    requires forall m :: 0 <= m < |items| ==> "type" in items[m]
    ensures err == FirstTypeErrorFrom(items, 0)
  {
    for i := 0 to |items|
      invariant FirstTypeErrorFrom(items, 0) == FirstTypeErrorFrom(items, i)
    {
      var e := TypeErrorOf(items[i]["type"]);
      if e.Some? {
        return e;
      }
    }
    return None;
  }

  // ---------------------------------------------------------------------
  // shuffle

  /** `random.shuffle(items)`: Fisher-Yates from the last position down.
      The generator's draw for position `i` is `pick(i)`, reduced to
      `0..i` as `randbelow(i + 1)` would return it. */
  method Shuffle(items: seq<Item>, pick: nat -> nat) returns (shuffled: seq<Item>)
    ensures |shuffled| == |items|
    ensures multiset(shuffled) == multiset(items)
  {
    shuffled := items;
    var i := |items|;
    while i > 1
      invariant 0 <= i <= |items|
      invariant |shuffled| == |items|
      invariant multiset(shuffled) == multiset(items)
    {
      i := i - 1;
      var j := pick(i) % (i + 1);
      shuffled := shuffled[i := shuffled[j]][j := shuffled[i]];
    }
  }

  // ---------------------------------------------------------------------
  // importItems

  /** The renamed, defaulted and split items, before the type check. */
  function Prepared(items: seq<Item>): (r: seq<Item>)
    ensures |r| == |items|
    ensures forall i :: 0 <= i < |items| ==> r[i] == SplitOptionsOf(WithDefaults(RenameAll(items[i]), i))
    ensures forall i :: 0 <= i < |items| ==> "type" in r[i]
  {
    seq(|items|, i requires 0 <= i < |items| => SplitOptionsOf(WithDefaults(RenameAll(items[i]), i)))
  }

  /** What `importItems` returns for a list of dicts, without shuffling. */
  function Imported(items: seq<Item>, table: FieldTable): Result<seq<Item>, ImportError>
  {
    var names := RenamedFieldNames(items, FieldNames(items));
    match FirstMissingRequired(table, names)
    case Some(h) => Failure(MissingHeader(h, names))
    case None =>
      var prepared := Prepared(items);
      match FirstTypeErrorFrom(prepared, 0)
      case Some(e) => Failure(e)
      case None => Success(prepared)
  }

  /** The value the shared table's `index` entry holds after an import. */
  function TableAfter(items: seq<Item>, table: FieldTable): FieldTable
  {
    if FirstMissingRequired(table, RenamedFieldNames(items, FieldNames(items))).Some? || |items| == 0 then table
    else FieldTable(VInt(|items| - 1))
  }

  /** `importItems(items)` for a list of dicts. `randomize` switches the
      shuffle on; the shuffled result holds the same items. */
  method ImportItems(items: seq<Item>, table: FieldTable, randomize: bool, pick: nat -> nat)
    returns (r: Result<seq<Item>, ImportError>, tableOut: FieldTable)
    ensures !randomize ==> r == Imported(items, table)
    ensures r.Failure? <==> Imported(items, table).Failure?
    ensures r.Failure? ==> r == Imported(items, table)
    ensures r.Success? ==> multiset(r.value) == multiset(Imported(items, table).value)
    ensures tableOut == TableAfter(items, table)
  {
    var names := CollectFieldNames(items);
    KeysInFieldNames(items);
    var renamed;
    renamed, names := CheckSynonyms(items, names);
    var missing := CheckRequiredFields(table, names);
    if missing.Some? {
      return Failure(MissingHeader(missing.value, names)), table;
    }
    var filled;
    filled, tableOut := AddDefaultItems(renamed, table);
    forall i | 0 <= i < |filled| ensures "options" in filled[i] {
      assert filled[i] == WithDefaults(renamed[i], i);
      assert "options" in FieldOrder;
    }
    var split := SplitOptions(filled);
    forall i | 0 <= i < |items| ensures split[i] == Prepared(items)[i] {
      assert filled[i] == WithDefaults(RenameAll(items[i]), i);
    }
    assert split == Prepared(items);
    var err := CheckTypes(split);
    if err.Some? {
      return Failure(err.value), tableOut;
    }
    if randomize {
      split := Shuffle(split, pick);
    }
    return Success(split), tableOut;
  }

  // ---------------------------------------------------------------------
  // Properties of the import

  /** The items after renaming. */
  function RenamedItems(items: seq<Item>): (r: seq<Item>)
    ensures |r| == |items| && forall i :: 0 <= i < |items| ==> r[i] == RenameAll(items[i])
  {
    seq(|items|, i requires 0 <= i < |items| => RenameAll(items[i]))
  }

  /** The field names `_checkSynonyms` leaves are exactly the keys of the
      renamed items: each legacy name is swapped for its current one. */
  lemma RenamedFieldNamesAreKeys(items: seq<Item>)
    ensures RenamedFieldNames(items, FieldNames(items)) == FieldNames(RenamedItems(items))
  {
    forall k | k in RenamedFieldNames(items, FieldNames(items)) ensures k in FieldNames(RenamedItems(items)) {
      RenamedNameIsKey(items, k);
    }
    forall k | k in FieldNames(RenamedItems(items)) ensures k in RenamedFieldNames(items, FieldNames(items)) {
      var i :| 0 <= i < |items| && k in RenamedItems(items)[i];
      KeyIsRenamedName(items, i, k);
    }
  }

  lemma SynonymFacts()
    ensures Synonyms[0] == ("itemText", "questionText") && Synonyms[1] == ("choice", "radio")
            && Synonyms[2] == ("free text", "textBox")
    ensures LegacyOf.Keys == {"itemText", "choice", "free text"}
    ensures LegacyOf.Values == {"questionText", "radio", "textBox"}
    ensures forall q :: 0 <= q < |Synonyms| ==> Synonyms[q].0 in LegacyOf && LegacyOf[Synonyms[q].0] == Synonyms[q].1
  {
  }

  lemma RenamedNameIsKey(items: seq<Item>, k: string)
    requires k in RenamedFieldNames(items, FieldNames(items))
    ensures k in FieldNames(RenamedItems(items))
  {
    SynonymFacts();
    var replaced := ReplacedThrough(items, |Synonyms|);
    if k in replaced {
      var q, i :| 0 <= q < |Synonyms| && 0 <= i < |items| && Synonyms[q].1 in items[i] && Synonyms[q].0 == k;
      RenameAllEffect(items[i]);
      assert k in RenamedItems(items)[i];
    } else {
      var i :| 0 <= i < |items| && k in items[i];
      RenameAllEffect(items[i]);
      if k in LegacyOf.Keys {
        var q :| 0 <= q < |Synonyms| && Synonyms[q].0 == k;
        assert Synonyms[q].1 !in items[i];
      } else {
        assert k !in LegacyOf.Values;
      }
      assert k in RenamedItems(items)[i];
    }
  }

  lemma KeyIsRenamedName(items: seq<Item>, i: nat, k: string)
    requires i < |items| && k in RenamedItems(items)[i]
    ensures k in RenamedFieldNames(items, FieldNames(items))
  {
    RenamedKeyOrigin(items[i], k);
    KeysInFieldNames(items);
    if k !in items[i] {
      var q :| 0 <= q < |Synonyms| && Synonyms[q].0 == k && Synonyms[q].1 in items[i];
      assert k in ReplacedThrough(items, |Synonyms|);
    }
    assert k !in LegacyNames(ReplacedThrough(items, |Synonyms|));
  }

  /** A key after renaming is no legacy key, and it was a key before or
      the current name of a legacy key there was. */
  lemma RenamedKeyOrigin(item: Item, k: string)
    requires k in RenameAll(item)
    ensures k !in LegacyOf.Values
    ensures k in item || exists q :: 0 <= q < |Synonyms| && Synonyms[q].0 == k && Synonyms[q].1 in item
  {
    SynonymFacts();
    RenameAllEffect(item);
    if k !in item && k in LegacyOf.Keys {
      var q :| 0 <= q < |Synonyms| && Synonyms[q].0 == k;
      assert Synonyms[q].1 in item;
    }
  }

  /** A table left behind by an import: `index` is None or a position. */
  predicate ReachableTable(table: FieldTable)
  {
    table.index == VNone || (table.index.VInt? && table.index.i >= 0)
  }

  lemma InitialTableReachable()
    ensures ReachableTable(InitialTable)
    ensures forall items :: ReachableTable(TableAfter(items, InitialTable))
  {
  }

  /** Every import leaves a table it started from reachable, so the
      header check sees the same table shape on every later import. */
  lemma TableAfterReachable(items: seq<Item>, table: FieldTable)
    requires ReachableTable(table)
    ensures ReachableTable(TableAfter(items, table))
  {
  }

  /** Import fails on a missing header exactly when no item, after
      renaming, has an `itemText` key or none has a `type` key: only the
      union of the keys is checked, not each row. */
  lemma ImportMissingHeader(items: seq<Item>, table: FieldTable)
    requires ReachableTable(table)
    ensures var names := FieldNames(RenamedItems(items));
            (Imported(items, table).Failure? && Imported(items, table).error.MissingHeader?)
            <==> !("itemText" in names && "type" in names)
  {
    RenamedFieldNamesAreKeys(items);
    RequiredHeaders(table, RenamedFieldNames(items, FieldNames(items)));
  }

  /** Past the header check, import fails exactly when some prepared item's
      type is not one of the seven known response types. */
  lemma ImportTypeCheck(items: seq<Item>, table: FieldTable)
    requires FirstMissingRequired(table, RenamedFieldNames(items, FieldNames(items))).None?
    ensures Imported(items, table).Success? <==>
            forall i :: 0 <= i < |items| ==>
              Prepared(items)[i]["type"].VStr? && Prepared(items)[i]["type"].s in KnownRespTypes
  {
    FirstTypeErrorMeaning(Prepared(items), 0);
  }

  /** What one prepared item holds: every known field, each taken as
      `FillValue` says except `options`, which is split when a string. */
  lemma PreparedItem(items: seq<Item>, i: nat)
    requires i < |items|
    ensures var r := Prepared(items)[i];
            && (forall h :: h in FieldOrder ==> h in r)
            && (forall h :: h in FieldOrder && h != "options" ==> r[h] == FillValue(RenameAll(items[i]), h, i))
            && "options" in r && !r["options"].VStr?
  {
    WithDefaultsEffect(RenameAll(items[i]), i);
    LayoutFieldsKnown();
  }

  /** One rejected prepared type makes the whole import fail. */
  lemma RejectedTypeFails(items: seq<Item>, table: FieldTable, i: nat)
    requires i < |items|
    requires !(Prepared(items)[i]["type"].VStr? && Prepared(items)[i]["type"].s in KnownRespTypes)
    ensures Imported(items, table).Failure?
  {
    if FirstMissingRequired(table, RenamedFieldNames(items, FieldNames(items))).None? {
      ImportTypeCheck(items, table);
    }
  }

  /** A row whose own type is missing or empty gets the sentinel, which
      is not a known type, so the import fails even though another row
      supplied the `type` header. */
  lemma RowWithoutTypeRejected(items: seq<Item>, table: FieldTable, i: nat)
    requires i < |items|
    requires !IsPresent(RenameAll(items[i]), "type")
    ensures Imported(items, table).Failure?
  {
    PreparedItem(items, i);
    assert "type" in FieldOrder && LegacyHeader("type") == "type";
    assert Prepared(items)[i]["type"] == VInt(REQUIRED);
    RejectedTypeFails(items, table, i);
  }

  /** The synonym table renames keys only: a `type` value of "textBox",
      the old name of "free text", is not converted and is rejected. */
  lemma LegacyTypeValueRejected(items: seq<Item>, table: FieldTable, i: nat)
    requires i < |items|
    requires "type" in RenameAll(items[i]) && RenameAll(items[i])["type"] == VStr("textBox")
    ensures Imported(items, table).Failure?
  {
    PreparedItem(items, i);
    assert "type" in FieldOrder;
    assert Prepared(items)[i]["type"] == VStr("textBox");
    RejectedTypeFails(items, table, i);
  }

  /** A successful import returns the prepared items. */
  lemma ImportedValue(items: seq<Item>, table: FieldTable)
    requires Imported(items, table).Success?
    ensures FirstMissingRequired(table, RenamedFieldNames(items, FieldNames(items))).None?
    ensures Imported(items, table).value == Prepared(items)
  {
  }

  /** A successful import keeps the number and order of the items, gives
      every item every known field, and holds no option string (each was
      split into its comma-separated pieces). */
  lemma ImportedItems(items: seq<Item>, table: FieldTable)
    requires Imported(items, table).Success?
    ensures var r := Imported(items, table).value;
            && |r| == |items|
            && (forall i, h :: 0 <= i < |items| && h in FieldOrder ==> h in r[i])
            && (forall i :: 0 <= i < |items| ==> "options" in r[i] && !r[i]["options"].VStr?)
            && (forall i, h :: 0 <= i < |items| && h in FieldOrder && h != "options"
                  ==> r[i][h] == FillValue(RenameAll(items[i]), h, i))
  {
    ImportedValue(items, table);
    PreparedItems(items);
  }

  /** Every item of a successful import has one of the seven known types. */
  lemma ImportedTypesKnown(items: seq<Item>, table: FieldTable)
    requires Imported(items, table).Success?
    ensures var r := Imported(items, table).value;
            forall i :: 0 <= i < |r| ==> "type" in r[i] && r[i]["type"].VStr? && r[i]["type"].s in KnownRespTypes
  {
    ImportedValue(items, table);
    ImportTypeCheck(items, table);
  }

  lemma PreparedItems(items: seq<Item>)
    ensures var r := Prepared(items);
            && (forall i, h :: 0 <= i < |items| && h in FieldOrder ==> h in r[i])
            && (forall i :: 0 <= i < |items| ==> "options" in r[i] && !r[i]["options"].VStr?)
            && (forall i, h :: 0 <= i < |items| && h in FieldOrder && h != "options"
                  ==> r[i][h] == FillValue(RenameAll(items[i]), h, i))
  {
    forall i | 0 <= i < |items| {
      PreparedItem(items, i);
    }
  }
}
