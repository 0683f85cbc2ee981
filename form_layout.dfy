/** The layout and response state of a PsychoPy `Form`: the form stacks its
    items from the top edge downwards, one base position per item, keeps
    the total height laid out so far, decides whether it needs a scroll
    bar, offsets the items by the scroll bar's marker, and collects the
    responses back into the items. Measured text heights are inputs. */
module FormLayout {
  import opened Outcomes
  import opened FormItems
  import PyStrings

  datatype Decoration = Border | ScrollBar

  /** The form's left, right and top edges. */
  datatype Edges = Edges(left: real, right: real, top: real)

  datatype FormError =
    | ImportFailed(cause: ImportError)
    | NotANumber(v: Value)                // TypeError in a width product
    | BadOptions(options: Value)          // max()/len() over the options fail
    | NotStringOptions(options: Value)    // AttributeError from `.strip(' ')`
    | UnknownLayout(layout: Value)        // neither 'vert' nor 'horiz': an unbound local
    | NotReversible(options: Value)       // AttributeError: only a list has `.reverse()`
    | UnknownResponseType(typ: Value)     // an unbound `respCtrl`, or no `.lower()`
    | DivisionByZero                      // ZeroDivisionError
    | NoPositions                         // ValueError: min() of an empty list
    | NoResponseText                      // AttributeError: `None` has no `.text`

  /** `_makeTextBox` reports half the height of its box. The box is
      requested 0.25 high, and `TextBox2` is taken to keep that size. */
  const FreeTextHeight: real := 0.125

  function Max(a: real, b: real): (r: real)
    ensures r >= a && r >= b && (r == a || r == b)
  {
    if a >= b then a else b
  }

  /** A value arithmetic accepts: an int, a float or a bool. */
  predicate IsNumber(v: Value)
  {
    v.VInt? || v.VReal? || v.VBool?
  }

  /** A Python number as a real (`True` and `False` are 1 and 0). */
  function Numeric(v: Value): (r: Option<real>)
    ensures r.Some? <==> IsNumber(v)
  {
    match v
    case VInt(i) => Some(i as real)
    case VReal(r) => Some(r)
    case VBool(b) => Some(if b then 1.0 else 0.0)
    case _ => None
  }

  /** The elements a value iterates over, if it is a sequence at all: a
      string iterates over its one-character strings. */
  function Elements(v: Value): (r: Option<seq<Value>>)
    ensures r.Some? <==> v.VStr? || v.VList? || v.VTuple?
  {
    match v
    case VStr(s) => Some(Chars(s))
    case VList(xs) => Some(xs)
    case VTuple(xs) => Some(xs)
    case _ => None
  }

  function Chars(s: string): (r: seq<Value>)
    ensures |r| == |s|
    decreases |s|
  {
    if |s| == 0 then [] else [VStr([s[0]])] + Chars(s[1..])
  }

  /** `list.reverse()`. */
  function Reversed(xs: seq<Value>): (r: seq<Value>)
    ensures |r| == |xs|
    decreases |xs|
  {
    if |xs| == 0 then [] else [xs[|xs| - 1]] + Reversed(xs[..|xs| - 1])
  }

  lemma {:induction false} ReversedAt(xs: seq<Value>)
    ensures forall k :: 0 <= k < |xs| ==> Reversed(xs)[k] == xs[|xs| - 1 - k]
    decreases |xs|
  {
    if |xs| > 0 {
      var init := xs[..|xs| - 1];
      ReversedAt(init);
      assert forall k :: 1 <= k < |xs| ==> Reversed(xs)[k] == Reversed(init)[k - 1];
    }
  }

  /** Reversing twice gives the list back, so a reversed list holds the
      same options. */
  lemma ReversedTwice(xs: seq<Value>)
    ensures Reversed(Reversed(xs)) == xs
  {
    ReversedAt(xs);
    ReversedAt(Reversed(xs));
  }

  /** Every element has a length (`len` does not raise). */
  predicate AllSized(xs: seq<Value>)
    decreases |xs|
  {
    |xs| == 0 || (Elements(xs[0]).Some? && AllSized(xs[1..]))
  }

  /** Every element is a string (`.strip` does not raise). */
  predicate AllStrings(xs: seq<Value>)
    decreases |xs|
  {
    |xs| == 0 || (xs[0].VStr? && AllStrings(xs[1..]))
  }

  lemma {:induction false} AllSizedMeaning(xs: seq<Value>)
    ensures AllSized(xs) <==> forall k :: 0 <= k < |xs| ==> Elements(xs[k]).Some?
    decreases |xs|
  {
    if |xs| > 0 {
      AllSizedMeaning(xs[1..]);
      assert forall k :: 1 <= k < |xs| ==> xs[k] == xs[1..][k - 1];
    }
  }

  lemma {:induction false} AllStringsMeaning(xs: seq<Value>)
    ensures AllStrings(xs) <==> forall k :: 0 <= k < |xs| ==> xs[k].VStr?
    decreases |xs|
  {
    if |xs| > 0 {
      AllStringsMeaning(xs[1..]);
      assert forall k :: 1 <= k < |xs| ==> xs[k] == xs[1..][k - 1];
    }
  }

  /** The control `_setResponse` builds for a response type. */
  datatype ResponseKind = TextBoxResponse | NoResponse | SliderResponse

  /** The response types `_setResponse` recognises, compared in lower case. */
  const ResponseTypes: seq<(string, ResponseKind)> :=
    [("free text", TextBoxResponse), ("heading", NoResponse), ("description", NoResponse),
     ("rating", SliderResponse), ("slider", SliderResponse), ("choice", SliderResponse),
     ("radio", SliderResponse)]

  /** The kind of the first entry whose name is `typ.lower()`. */
  function KindOf(typ: string, table: seq<(string, ResponseKind)>): (r: Option<ResponseKind>)
    decreases |table|
  {
    if |table| == 0 then None
    else if PyStrings.LowerIs(typ, table[0].0) then Some(table[0].1)
    else KindOf(typ, table[1..])
  }

  /** A type is recognised exactly when its lower case is in the table, and
      it gets the kind of its first entry. */
  lemma {:induction false} KindOfMeaning(typ: string, table: seq<(string, ResponseKind)>)
    ensures KindOf(typ, table).Some? <==> exists j :: 0 <= j < |table| && table[j].0 == PyStrings.Lower(typ)
    ensures KindOf(typ, table).Some? ==>
              exists j :: 0 <= j < |table| && table[j] == (PyStrings.Lower(typ), KindOf(typ, table).value)
                          && forall m :: 0 <= m < j ==> table[m].0 != PyStrings.Lower(typ)
    decreases |table|
  {
    if |table| > 0 {
      PyStrings.LowerIsMeaning(typ, table[0].0);
      KindOfMeaning(typ, table[1..]);
      assert forall j :: 1 <= j < |table| ==> table[j] == table[1..][j - 1];
      if PyStrings.Lower(typ) != table[0].0 && KindOf(typ, table).Some? {
        var j :| 0 <= j < |table[1..]| && table[1..][j] == (PyStrings.Lower(typ), KindOf(typ, table).value)
                 && forall m :: 0 <= m < j ==> table[1..][m].0 != PyStrings.Lower(typ);
        assert table[j + 1] == table[1..][j];
      }
    }
  }

  /** An item with the fields the layout reads (the importer fills in
      every field, so each imported item has them). */
  predicate HasFields(item: Item)
  {
    "itemWidth" in item && "responseWidth" in item && "type" in item && "layout" in item && "options" in item
  }

  predicate AllHaveFields(items: seq<Item>)
  {
    forall i :: 0 <= i < |items| ==> HasFields(items[i])
  }

  /** The items a successful import returns can be laid out. */
  lemma ImportedHaveFields(items: seq<Item>, table: FieldTable)
    requires Imported(items, table).Success?
    ensures AllHaveFields(Imported(items, table).value)
  {
    ImportedItems(items, table);
    LayoutFieldsKnown();
  }

  // ---------------------------------------------------------------------
  // The vertical stack of items

  /** The heights one item contributes: its response and its question, and
      whether its layout is 'vert'. */
  datatype Row = Row(resp: real, question: real, vertical: bool)

  /** How far one item lowers `virtualHeight`. */
  function RowIncrement(row: Row, pad: real): real
  {
    Max(row.resp, row.question) + pad
  }

  /** The base position `_setBaseYPosition` appends for a row laid out
      when `virtualHeight` is `vh`. */
  function RowBaseY(row: Row, vh: real, pad: real): real
  {
    vh - Max(row.resp, row.question) + (if row.vertical then row.resp / 2.0 else 0.0) - pad
  }

  /** The base positions of rows stacked from `vh` downwards. */
  function StackYs(rows: seq<Row>, vh: real, pad: real): (ys: seq<real>)
    ensures |ys| == |rows|
    decreases |rows|
  {
    if |rows| == 0 then []
    else [RowBaseY(rows[0], vh, pad)] + StackYs(rows[1..], vh - RowIncrement(rows[0], pad), pad)
  }

  /** The total height of stacked rows. */
  function StackDepth(rows: seq<Row>, pad: real): real
    decreases |rows|
  {
    if |rows| == 0 then 0.0 else RowIncrement(rows[0], pad) + StackDepth(rows[1..], pad)
  }

  predicate NonNegativeRows(rows: seq<Row>)
  {
    forall k :: 0 <= k < |rows| ==> rows[k].resp >= 0.0 && rows[k].question >= 0.0
  }

  /** Stacking one more row appends its base position, taken at the depth
      reached so far. */
  lemma {:induction false} StackAppend(rows: seq<Row>, row: Row, vh: real, pad: real)
    ensures StackYs(rows + [row], vh, pad) == StackYs(rows, vh, pad) + [RowBaseY(row, vh - StackDepth(rows, pad), pad)]
    ensures StackDepth(rows + [row], pad) == StackDepth(rows, pad) + RowIncrement(row, pad)
    decreases |rows|
  {
    if |rows| > 0 {
      assert (rows + [row])[1..] == rows[1..] + [row];
      StackAppend(rows[1..], row, vh - RowIncrement(rows[0], pad), pad);
    } else {
      assert rows + [row] == [row];
    }
  }

  /** The base positions and depth after one more row, from those before. */
  lemma StackStep(ys0: seq<real>, rows: seq<Row>, row: Row, vh: real, pad: real)
    ensures ys0 + StackYs(rows, vh, pad) + [RowBaseY(row, vh - StackDepth(rows, pad), pad)]
            == ys0 + StackYs(rows + [row], vh, pad)
    ensures vh - StackDepth(rows, pad) - RowIncrement(row, pad) == vh - StackDepth(rows + [row], pad)
  {
    StackAppend(rows, row, vh, pad);
  }

  /** With non-negative heights every base position lies at least the
      padding below the starting depth. */
  lemma {:induction false} StackBelowStart(rows: seq<Row>, vh: real, pad: real)
    requires pad > 0.0 && NonNegativeRows(rows)
    ensures forall k :: 0 <= k < |rows| ==> StackYs(rows, vh, pad)[k] <= vh - pad
    decreases |rows|
  {
    if |rows| > 0 {
      StackBelowStart(rows[1..], vh - RowIncrement(rows[0], pad), pad);
      var ys := StackYs(rows, vh, pad);
      forall k | 1 <= k < |rows| ensures ys[k] <= vh - pad {
        assert ys[k] == StackYs(rows[1..], vh - RowIncrement(rows[0], pad), pad)[k - 1];
      }
    }
  }

  /** With non-negative heights and positive padding the base positions
      strictly decrease down the form. */
  lemma {:induction false} StackDecreasing(rows: seq<Row>, vh: real, pad: real)
    requires pad > 0.0 && NonNegativeRows(rows)
    ensures forall i, j :: 0 <= i < j < |rows| ==> StackYs(rows, vh, pad)[j] < StackYs(rows, vh, pad)[i]
    decreases |rows|
  {
    if |rows| > 0 {
      var vh' := vh - RowIncrement(rows[0], pad);
      var tail := StackYs(rows[1..], vh', pad);
      StackDecreasing(rows[1..], vh', pad);
      StackBelowStart(rows[1..], vh', pad);
      var ys := StackYs(rows, vh, pad);
      assert ys == [RowBaseY(rows[0], vh, pad)] + tail;
      assert rows[0].resp >= 0.0 && rows[0].question >= 0.0;
      assert ys[0] >= vh - Max(rows[0].resp, rows[0].question) - pad;
      forall i, j | 0 <= i < j < |rows| ensures ys[j] < ys[i] {
        assert ys[j] == tail[j - 1];
        if i > 0 {
          assert ys[i] == tail[i - 1];
          assert tail[j - 1] < tail[i - 1];
        } else {
          assert tail[j - 1] <= vh' - pad;
          assert vh' == vh - Max(rows[0].resp, rows[0].question) - pad;
        }
      }
    }
  }

  /** Each row lowers the total by at least the padding. */
  lemma {:induction false} StackDepthBound(rows: seq<Row>, pad: real)
    requires pad > 0.0 && NonNegativeRows(rows)
    ensures StackDepth(rows, pad) >= |rows| as real * pad
    decreases |rows|
  {
    if |rows| > 0 {
      StackDepthBound(rows[1..], pad);
    }
  }

  // ---------------------------------------------------------------------
  // Responses

  function OptionalReal(x: Option<real>): Value
  {
    if x.Some? then VReal(x.value) else VNone
  }

  /** What `getData` as written does to one item: `response` and `rt`
      from its control; `None` when reading the control fails, which
      includes the `None` control of a heading or a description, since
      only a missing `responseCtrl` key is skipped. */
  function HarvestAsWritten(item: Item): Option<Item>
  {
    if "responseCtrl" !in item then Some(item)
    else match item["responseCtrl"]
      case VCtrl(Rating(rating, rt)) => Some(item["response" := OptionalReal(rating)]["rt" := OptionalReal(rt)])
      case VCtrl(Text(s)) => Some(item["response" := VStr(s)]["rt" := VNone])
      case _ => None
  }

  /** What `getData` writes into one item, skipping an item without a
      control as its comment intends ("maybe a heading or similar"):
      `response` and `rt` from a slider or a text box; the item unchanged
      when it has no `responseCtrl` key or holds the `None` control;
      `None` when the value under `responseCtrl` is not a control. */
  function Harvest(item: Item): (r: Option<Item>)
    ensures "responseCtrl" in item && item["responseCtrl"] != VCtrl(NoCtrl) ==> r == HarvestAsWritten(item)
  {
    if "responseCtrl" !in item || item["responseCtrl"] == VCtrl(NoCtrl) then Some(item)
    else HarvestAsWritten(item)
  }

  /** An item with a slider or a text box whose response is `None` or ''. */
  predicate Unanswered(item: Item)
  {
    && "responseCtrl" in item && item["responseCtrl"] != VCtrl(NoCtrl)
    && "response" in item && (item["response"] == VNone || item["response"] == VStr(""))
  }

  function CountUnanswered(items: seq<Item>): nat
    decreases |items|
  {
    if |items| == 0 then 0
    else CountUnanswered(items[..|items| - 1]) + (if Unanswered(items[|items| - 1]) then 1 else 0)
  }

  lemma {:induction false} CountUnansweredZero(items: seq<Item>)
    ensures CountUnanswered(items) == 0 <==> forall m :: 0 <= m < |items| ==> !Unanswered(items[m])
    decreases |items|
  {
    if |items| > 0 {
      var init := items[..|items| - 1];
      CountUnansweredZero(init);
      assert forall m :: 0 <= m < |init| ==> init[m] == items[m];
    }
  }

  /** Every item's control can be read. */
  predicate Readable(items: seq<Item>)
  {
    forall m :: 0 <= m < |items| ==> Harvest(items[m]).Some?
  }

  /** The first item whose control cannot be read, from position `i` on. */
  function FirstUnreadable(items: seq<Item>, i: nat): (r: Option<nat>)
    ensures r.Some? ==> i <= r.value < |items|
    decreases |items| - i
  {
    if i >= |items| then None
    else if Harvest(items[i]).None? then Some(i)
    else FirstUnreadable(items, i + 1)
  }

  /** Where the `getData` loop as written stops: the first item from
      position `i` on whose control it cannot read, and none exactly when
      it reads every item. */
  function FirstUnreadableAsWritten(items: seq<Item>, i: nat): (r: Option<nat>)
    ensures r.Some? ==> && i <= r.value < |items| && HarvestAsWritten(items[r.value]).None?
                        && forall m :: i <= m < r.value ==> HarvestAsWritten(items[m]).Some?
    ensures r.None? <==> forall m :: i <= m < |items| ==> HarvestAsWritten(items[m]).Some?
    decreases |items| - i
  {
    if i >= |items| then None
    else if HarvestAsWritten(items[i]).None? then Some(i)
    else FirstUnreadableAsWritten(items, i + 1)
  }

  /** An item of type heading or description, which gets no response. */
  predicate NoResponseItem(item: Item)
  {
    "type" in item && item["type"].VStr? && KindOf(item["type"].s, ResponseTypes) == Some(NoResponse)
  }

  /** `FirstUnreadable` finds the first unreadable item, and finds none
      exactly when every item from `i` on is readable. */
  lemma {:induction false} FirstUnreadableMeaning(items: seq<Item>, i: nat)
    ensures var r := FirstUnreadable(items, i);
            && (r.Some? ==> Harvest(items[r.value]).None? && forall m :: i <= m < r.value ==> Harvest(items[m]).Some?)
            && (r.None? <==> forall m :: i <= m < |items| ==> Harvest(items[m]).Some?)
    decreases |items| - i
  {
    if i < |items| && Harvest(items[i]).Some? {
      FirstUnreadableMeaning(items, i + 1);
    }
  }

  /** Every item harvested. */
  function HarvestAll(items: seq<Item>): (r: seq<Item>)
    requires Readable(items)
    ensures |r| == |items|
    decreases |items|
  {
    if |items| == 0 then []
    else
      var init := items[..|items| - 1];
      assert forall m :: 0 <= m < |init| ==> init[m] == items[m];
      HarvestAll(init) + [Harvest(items[|items| - 1]).value]
  }

  lemma {:induction false} HarvestAllAt(items: seq<Item>)
    requires Readable(items)
    ensures forall m :: 0 <= m < |items| ==> HarvestAll(items)[m] == Harvest(items[m]).value
    decreases |items|
  {
    if |items| > 0 {
      var init := items[..|items| - 1];
      assert forall m :: 0 <= m < |init| ==> init[m] == items[m];
      HarvestAllAt(init);
    }
  }

  /** Collecting one more item extends the collected prefix by it. */
  lemma HarvestStep(items: seq<Item>, i: nat)
    requires i < |items| && Readable(items[..i]) && Harvest(items[i]).Some?
    ensures Readable(items[..i + 1])
    ensures HarvestAll(items[..i + 1]) == HarvestAll(items[..i]) + [Harvest(items[i]).value]
    ensures CountUnanswered(HarvestAll(items[..i + 1]))
            == CountUnanswered(HarvestAll(items[..i])) + (if Unanswered(Harvest(items[i]).value) then 1 else 0)
  {
    assert items[..i + 1][..i] == items[..i];
    var longer := HarvestAll(items[..i + 1]);
    assert longer[..|longer| - 1] == HarvestAll(items[..i]);
  }

  /** Harvesting sets `response` and `rt` on every item with a slider or
      a text box, leaves the other items alone, and a second harvest
      changes nothing. */
  lemma HarvestEffect(item: Item)
    requires Harvest(item).Some?
    ensures var h := Harvest(item).value;
            && ("responseCtrl" in item && item["responseCtrl"] != VCtrl(NoCtrl) ==>
                  "response" in h && "rt" in h && h - {"response", "rt"} == item - {"response", "rt"})
            && ("responseCtrl" !in item || item["responseCtrl"] == VCtrl(NoCtrl) ==> h == item)
            && Harvest(h) == Some(h)
  {
    var h := Harvest(item).value;
    if "responseCtrl" in item && item["responseCtrl"] != VCtrl(NoCtrl) {
      assert h["responseCtrl"] == item["responseCtrl"];
      assert Harvest(h).value == h;
    }
  }

  /** Every control the layout stores can be read. */
  predicate ReadableCtrl(v: Value)
  {
    v.VCtrl? && (v.ctrl.NoCtrl? || v.ctrl.Rating? || v.ctrl.Text?)
  }

  lemma ReadableCtrlHarvested(item: Item)
    requires "responseCtrl" in item && ReadableCtrl(item["responseCtrl"])
    ensures Harvest(item).Some?
    ensures item["responseCtrl"].ctrl.NoCtrl? <==> HarvestAsWritten(item).None?
  {
  }

  /** Collecting twice with unchanged controls gives what collecting once
      gave, so `formComplete` answers the same both times. */
  lemma HarvestAllIdempotent(items: seq<Item>)
    requires Readable(items)
    ensures Readable(HarvestAll(items))
    ensures HarvestAll(HarvestAll(items)) == HarvestAll(items)
  {
    var once := HarvestAll(items);
    HarvestAllAt(items);
    forall m | 0 <= m < |items| ensures Harvest(once[m]) == Some(once[m]) {
      HarvestEffect(items[m]);
    }
    HarvestAllAt(once);
  }

  // ---------------------------------------------------------------------
  // The form

  class Form {
    var items: seq<Item>
    const width: real          // size[0]
    const height: real         // size[1]
    const posX: real           // pos[0]
    const posY: real           // pos[1]
    const itemPadding: real
    const textHeight: real
    const scrollBarWidth: real // _scrollBarSize[0]
    var scrollSpeed: int
    var leftEdge: real         // None until layout
    var rightEdge: real
    var topEdge: real
    var virtualHeight: real
    var baseYpositions: seq<real>
    var markerPos: real        // the scroll bar's marker; no scroll bar until layout
    var decorations: seq<Decoration>
    var complete: bool

    /** The part of `__init__` before `_doLayout`, for imported items. */
    constructor (imported: seq<Item>, width: real, height: real, posX: real, posY: real,
                 itemPadding: real, textHeight: real)
      ensures this.items == imported && this.width == width && this.height == height
      ensures this.posX == posX && this.posY == posY
      ensures this.itemPadding == itemPadding && this.textHeight == textHeight
      ensures scrollBarWidth == 0.016 && scrollSpeed == |imported| * 4
      ensures virtualHeight == 0.0 && baseYpositions == [] && decorations == [] && !complete
    {
      this.items := imported;
      this.width := width;
      this.height := height;
      this.posX := posX;
      this.posY := posY;
      this.itemPadding := itemPadding;
      this.textHeight := textHeight;
      scrollBarWidth := 0.016;
      scrollSpeed := ScrollSpeed(imported, 4);
      leftEdge, rightEdge, topEdge := 0.0, 0.0, 0.0;
      virtualHeight := 0.0;
      baseYpositions := [];
      markerPos := 0.0;
      decorations := [];
      complete := false;
    }

    /** `setScrollSpeed`: one wheel step moves the marker by
        1 / (items * multiplier). */
    static function ScrollSpeed(items: seq<Item>, multiplier: int): (r: int)
      ensures multiplier > 0 ==> (r == 0 <==> |items| == 0)
      ensures r == |items| * multiplier
    {
      |items| * multiplier
    }

    /** `_getItemRenderedWidth`: the question's wrap width, the item's share
        of the form's width less the padding on both sides. */
    function ItemRenderedWidth(size: Value): (r: Result<real, FormError>)
      ensures r.Success? <==> Numeric(size).Some?
      ensures r.Success? ==> r.value + 2.0 * itemPadding == Numeric(size).value * width
    {
      match Numeric(size)
      case Some(w) => Success(w * width - itemPadding * 2.0)
      case None => Failure(NotANumber(size))
    }

    /** `_responseTextWrap`: each option label gets an equal share of the
        response width. No option at all divides by zero. */
    function ResponseTextWrap(item: Item): (r: Result<real, FormError>)
      requires "responseWidth" in item && "options" in item
      ensures r.Success? <==> Numeric(item["responseWidth"]).Some? && Elements(item["options"]).Some?
                              && |Elements(item["options"]).value| > 0
      ensures r.Success? ==> r.value * (|Elements(item["options"]).value| as real)
                             == Numeric(item["responseWidth"]).value * width
    {
      match Numeric(item["responseWidth"])
      case None => Failure(NotANumber(item["responseWidth"]))
      case Some(rw) =>
        match Elements(item["options"])
        case None => Failure(BadOptions(item["options"]))
        case Some(xs) => if |xs| == 0 then Failure(DivisionByZero) else Success((rw * width) / (|xs| as real))
    }

    /** The edges `_doLayout` sets from the form's position and size. */
    function LayoutEdges(): (e: Edges)
      ensures e.right - e.left == width && e.left + e.right == 2.0 * posX
      ensures e.top - posY == height / 2.0
    {
      Edges(posX - width / 2.0, posX + width / 2.0, posY + height / 2.0)
    }

    /** `_getQuestionPos` while `virtualHeight` is `vh`: half the padding in
        from the left edge, centred half the question's height plus the
        padding below the bottom of the stack. */
    function QuestionPos(e: Edges, vh: real, questionHeight: real): (p: (real, real))
      ensures p.0 - itemPadding / 2.0 == e.left
      ensures p.1 + questionHeight / 2.0 + itemPadding == e.top + vh
    {
      (e.left + itemPadding / 2.0, e.top + vh - questionHeight / 2.0 - itemPadding)
    }

    /** `_getResponsePos`: the response box's right side sits the scroll
        bar and the padding (scaled by the width) inside the right edge, at
        the question's height. */
    function ResponsePos(e: Edges, item: Item, questionY: real): (r: Result<(real, real), FormError>)
      requires "responseWidth" in item
      ensures r.Success? <==> Numeric(item["responseWidth"]).Some?
      ensures r.Success? ==> r.value.1 == questionY
                             && r.value.0 + Numeric(item["responseWidth"]).value * width / 2.0
                                + scrollBarWidth + itemPadding * width == e.right
    {
      match Numeric(item["responseWidth"])
      case None => Failure(NotANumber(item["responseWidth"]))
      case Some(rw) => Success((e.right - (rw * width) / 2.0 - scrollBarWidth - itemPadding * width, questionY))
    }

    /** The options a slider is built from: `_getSliderHeight` needs a
        non-empty sequence of sized values and a 'vert' or 'horiz' layout,
        `_makeSlider` reverses a vertical list in place and strips every
        label, which must therefore be strings. */
    static function SliderOptions(options: Value, layout: Value): (r: Result<Value, FormError>)
    {
      match Elements(options)
      case None => Failure(BadOptions(options))
      case Some(xs) =>
        if |xs| == 0 || !AllSized(xs) then Failure(BadOptions(options))
        else if layout != VStr("vert") && layout != VStr("horiz") then Failure(UnknownLayout(layout))
        else if layout == VStr("vert") && !options.VList? then Failure(NotReversible(options))
        else if !AllStrings(xs) then Failure(NotStringOptions(options))
        else if layout == VStr("vert") then Success(VList(Reversed(xs)))
        else Success(options)
    }

    /** The slider's options exist exactly for a sized, non-empty sequence
        of string labels with a known layout (a list, when vertical); a
        vertical layout reverses them, a horizontal one keeps them. */
    static lemma SliderOptionsEffect(options: Value, layout: Value)
      ensures var r := SliderOptions(options, layout);
              && (r.Success? <==>
                    && (layout == VStr("vert") || layout == VStr("horiz"))
                    && (layout == VStr("vert") ==> options.VList?)
                    && Elements(options).Some? && |Elements(options).value| > 0
                    && forall k :: 0 <= k < |Elements(options).value| ==> Elements(options).value[k].VStr?)
              && (r.Success? && layout == VStr("vert") ==> r.value == VList(Reversed(options.elems)))
              && (r.Success? && layout == VStr("horiz") ==> r.value == options)
    {
      match Elements(options)
      case None =>
      case Some(xs) =>
        AllSizedMeaning(xs);
        AllStringsMeaning(xs);
    }

    /** The parts of `_setQuestion` and `_setResponse` that do not depend
        on how deep the stack already is: the question's wrap width and the
        response's position must be computable from the item's widths, and
        the response type decides the control (a text box, nothing, or a
        slider over the checked options) and the response height. The item
        comes back with its `responseCtrl` (and, for a slider, its options
        as the slider leaves them); the row holds the heights. */
    function ItemResponse(item: Item, questionHeight: real, sliderHeight: real)
      : (r: Result<(Item, Row), FormError>)
      requires HasFields(item)
    {
      var vertical := item["layout"] == VStr("vert");
      // `_getItemRenderedWidth` and `_getResponsePos` multiply the widths by
      // the form's width
      if !IsNumber(item["itemWidth"]) then Failure(NotANumber(item["itemWidth"]))
      else if !IsNumber(item["responseWidth"]) then Failure(NotANumber(item["responseWidth"]))
      else if !item["type"].VStr? then Failure(UnknownResponseType(item["type"]))
      else
        match KindOf(item["type"].s, ResponseTypes)
        case None => Failure(UnknownResponseType(item["type"]))
        case Some(TextBoxResponse) =>
          Success((item["responseCtrl" := VCtrl(Text(""))], Row(FreeTextHeight, questionHeight, vertical)))
        case Some(NoResponse) =>
          Success((item["responseCtrl" := VCtrl(NoCtrl)], Row(textHeight, questionHeight, vertical)))
        case Some(SliderResponse) =>
          match SliderOptions(item["options"], item["layout"])
          case Failure(err) => Failure(err)
          case Success(options) =>
            Success((item["options" := options]["responseCtrl" := VCtrl(Rating(None, None))],
                     Row(sliderHeight, questionHeight, vertical)))
    }

    /** An item whose response was set up keeps its fields, gains a
        response control, and changes nothing but its options; the row has
        the question's height and the item's layout. It fails exactly when
        a width is not a number, the type is not a known string, or a
        slider's options fail their checks. */
    lemma ItemResponseEffect(item: Item, questionHeight: real, sliderHeight: real)
      requires HasFields(item)
      ensures var r := ItemResponse(item, questionHeight, sliderHeight);
              && (r.Success? <==>
                    && Numeric(item["itemWidth"]).Some? && Numeric(item["responseWidth"]).Some?
                    && item["type"].VStr? && KindOf(item["type"].s, ResponseTypes).Some?
                    && (KindOf(item["type"].s, ResponseTypes) == Some(SliderResponse) ==>
                          SliderOptions(item["options"], item["layout"]).Success?))
              && (r.Success? ==>
                    var (laid, row) := r.value;
                    && row.question == questionHeight && row.vertical == (item["layout"] == VStr("vert"))
                    && laid.Keys == item.Keys + {"responseCtrl"}
                    && ReadableCtrl(laid["responseCtrl"])
                    && (laid["responseCtrl"] == VCtrl(NoCtrl) <==> KindOf(item["type"].s, ResponseTypes) == Some(NoResponse))
                    && (forall k :: k in item && k != "options" && k != "responseCtrl" ==> laid[k] == item[k]))
    {
      var r := ItemResponse(item, questionHeight, sliderHeight);
      if r.Success? {
        var kind := KindOf(item["type"].s, ResponseTypes);
        if kind == Some(SliderResponse) {
          SliderResponseKeeps(item, questionHeight, sliderHeight);
        } else {
          assert kind == Some(NoResponse) || kind == Some(TextBoxResponse);
        }
      }
    }

    lemma SliderResponseKeeps(item: Item, questionHeight: real, sliderHeight: real)
      requires HasFields(item) && item["type"].VStr? && KindOf(item["type"].s, ResponseTypes) == Some(SliderResponse)
      requires ItemResponse(item, questionHeight, sliderHeight).Success?
      ensures var laid := ItemResponse(item, questionHeight, sliderHeight).value.0;
              && laid.Keys == item.Keys + {"responseCtrl"} && laid["responseCtrl"] == VCtrl(Rating(None, None))
              && (forall k :: k in item && k != "options" && k != "responseCtrl" ==> laid[k] == item[k])
    {
    }

    /** The row of a set-up response has the question's height and the
        item's layout. */
    lemma ItemResponseRow(item: Item, questionHeight: real, sliderHeight: real)
      requires HasFields(item)
      ensures var r := ItemResponse(item, questionHeight, sliderHeight);
              r.Success? ==> r.value.1.question == questionHeight && r.value.1.vertical == (item["layout"] == VStr("vert"))
    {
    }

    /** An item whose response was set up has the widths the layout
        computes from it: the question's rendered width (`_setQuestion`),
        the response's position (`_setResponse`) at any question height,
        and for a slider the label wrap width (`_makeSlider`); and an item
        for which one of these fails gets no response. */
    lemma ItemResponseGeometry(item: Item, questionHeight: real, sliderHeight: real, questionY: real)
      requires HasFields(item)
      ensures ItemResponse(item, questionHeight, sliderHeight).Success? ==>
                && ItemRenderedWidth(item["itemWidth"]).Success?
                && ResponsePos(LayoutEdges(), item, questionY).Success?
                && (KindOf(item["type"].s, ResponseTypes) == Some(SliderResponse) ==> ResponseTextWrap(item).Success?)
      ensures ItemRenderedWidth(item["itemWidth"]).Failure? || ResponsePos(LayoutEdges(), item, questionY).Failure? ==>
                ItemResponse(item, questionHeight, sliderHeight).Failure?
    {
      ItemResponseEffect(item, questionHeight, sliderHeight);
      if ItemResponse(item, questionHeight, sliderHeight).Success?
         && KindOf(item["type"].s, ResponseTypes) == Some(SliderResponse)
      {
        SliderOptionsEffect(item["options"], item["layout"]);
      }
    }

    /** `_setQuestion`'s question box at the current depth `vh`. */
    function WithQuestion(e: Edges, item: Item, vh: real, questionHeight: real): (laid: Item)
      ensures laid.Keys == item.Keys + {"itemCtrl"}
      ensures forall k :: k in item && k != "itemCtrl" ==> laid[k] == item[k]
      ensures laid["itemCtrl"].VQuestion?
      ensures laid["itemCtrl"].x - itemPadding / 2.0 == e.left
      ensures laid["itemCtrl"].y + questionHeight / 2.0 + itemPadding == e.top + vh
    {
      var q := QuestionPos(e, vh, questionHeight);
      item["itemCtrl" := VQuestion(q.0, q.1)]
    }

    /** Every item's response set up, in order, with the measured heights
        of its question box and slider. */
    function Responses(items: seq<Item>, measureQuestion: Item -> real, measureSlider: Item -> real)
      : (r: seq<Result<(Item, Row), FormError>>)
      requires AllHaveFields(items)
      ensures |r| == |items|
      decreases |items|
    {
      if |items| == 0 then []
      else
        var last := items[|items| - 1];
        Responses(items[..|items| - 1], measureQuestion, measureSlider)
        + [ItemResponse(last, measureQuestion(last), measureSlider(last))]
    }

    lemma {:induction false} ResponsesAt(items: seq<Item>, measureQuestion: Item -> real, measureSlider: Item -> real, i: nat)
      requires AllHaveFields(items) && i < |items|
      ensures Responses(items, measureQuestion, measureSlider)[i]
              == ItemResponse(items[i], measureQuestion(items[i]), measureSlider(items[i]))
      decreases |items|
    {
      var init := items[..|items| - 1];
      if i < |init| {
        assert init[i] == items[i];
        ResponsesAt(init, measureQuestion, measureSlider, i);
      }
    }

    /** The layout loop of `_doLayout` over the first `n` set-up responses,
        starting at depth `vh`: the laid-out items and their rows, or the
        first error. Each question is placed at the depth its
        predecessors reach. */
    function Placed(e: Edges, responses: seq<Result<(Item, Row), FormError>>, n: nat, vh: real)
      : (r: Result<(seq<Item>, seq<Row>), FormError>)
      requires n <= |responses|
      ensures r.Success? ==> |r.value.0| == n && |r.value.1| == n
      decreases n
    {
      if n == 0 then Success(([], []))
      else
        match Placed(e, responses, n - 1, vh)
        case Failure(err) => Failure(err)
        case Success(prev) =>
          match PlaceNext(e, responses[n - 1], vh - StackDepth(prev.1, itemPadding))
          case Failure(err) => Failure(err)
          case Success(next) => Success((prev.0 + [next.0], prev.1 + [next.1]))
    }

    /** One item of the layout loop at depth `vh`: its set-up response
        (or error) with the question placed. */
    function PlaceNext(e: Edges, response: Result<(Item, Row), FormError>, vh: real)
      : (r: Result<(Item, Row), FormError>)
      ensures r.Failure? <==> response.Failure?
      ensures r.Failure? ==> r.error == response.error
      ensures r.Success? ==> r.value.1 == response.value.1
                             && r.value.0 == WithQuestion(e, response.value.0, vh, response.value.1.question)
    {
      match response
      case Failure(err) => Failure(err)
      case Success((withResponse, row)) => Success((WithQuestion(e, withResponse, vh, row.question), row))
    }

    /** One more step of the layout loop. */
    lemma PlacedStep(e: Edges, responses: seq<Result<(Item, Row), FormError>>, i: nat, vh: real,
                     done: seq<Item>, rows: seq<Row>, next: Result<(Item, Row), FormError>)
      requires i < |responses| && Placed(e, responses, i, vh) == Success((done, rows))
      requires next == PlaceNext(e, responses[i], vh - StackDepth(rows, itemPadding))
      ensures next.Failure? ==> Placed(e, responses, i + 1, vh) == Failure(next.error)
      ensures next.Success? ==> Placed(e, responses, i + 1, vh) == Success((done + [next.value.0], rows + [next.value.1]))
    {
    }

    /** Item `m` of a successful layout is the `m`th set-up response with
        its question added, and its row is that response's row. */
    lemma {:induction false} PlacedAt(e: Edges, responses: seq<Result<(Item, Row), FormError>>, n: nat, vh: real, m: nat)
      requires m < n <= |responses| && Placed(e, responses, n, vh).Success?
      ensures responses[m].Success?
      ensures var laid := Placed(e, responses, n, vh).value.0[m];
              var withResponse := responses[m].value.0;
              && laid.Keys == withResponse.Keys + {"itemCtrl"}
              && (forall k :: k in withResponse && k != "itemCtrl" ==> laid[k] == withResponse[k])
      ensures Placed(e, responses, n, vh).value.1[m] == responses[m].value.1
      decreases n
    {
      var prev := Placed(e, responses, n - 1, vh).value;
      var next := PlaceNext(e, responses[n - 1], vh - StackDepth(prev.1, itemPadding)).value;
      assert Placed(e, responses, n, vh).value == (prev.0 + [next.0], prev.1 + [next.1]);
      if m < n - 1 {
        PlacedAt(e, responses, n - 1, vh, m);
        assert (prev.0 + [next.0])[m] == prev.0[m];
        assert (prev.1 + [next.1])[m] == prev.1[m];
      }
    }

    /** The whole layout loop: the items laid out and their rows, or the
        error of the first item that fails. */
    function Layout(e: Edges, items: seq<Item>, vh: real, measureQuestion: Item -> real, measureSlider: Item -> real)
      : (r: Result<(seq<Item>, seq<Row>), FormError>)
      requires AllHaveFields(items)
      ensures r.Success? ==> |r.value.0| == |items| && |r.value.1| == |items|
    {
      Placed(e, Responses(items, measureQuestion, measureSlider), |items|, vh)
    }

    /** Every control a successful layout stores can be collected by
        `getData` when it skips the `None` control. */
    lemma LayoutReadable(e: Edges, items: seq<Item>, vh: real, measureQuestion: Item -> real,
                         measureSlider: Item -> real)
      requires AllHaveFields(items) && Layout(e, items, vh, measureQuestion, measureSlider).Success?
      ensures Readable(Layout(e, items, vh, measureQuestion, measureSlider).value.0)
    {
      var laid := Layout(e, items, vh, measureQuestion, measureSlider).value.0;
      forall m | 0 <= m < |laid| ensures Harvest(laid[m]).Some? {
        PlacedAt(e, Responses(items, measureQuestion, measureSlider), |items|, vh, m);
        ResponsesAt(items, measureQuestion, measureSlider, m);
        ItemResponseEffect(items[m], measureQuestion(items[m]), measureSlider(items[m]));
        ReadableCtrlHarvested(laid[m]);
      }
    }

    /** `getData` as written cannot collect a laid-out heading or
        description: its control is `None`, and reading `.text` of it
        raises. */
    lemma NoResponseUnreadableAsWritten(e: Edges, items: seq<Item>, vh: real, measureQuestion: Item -> real,
                                        measureSlider: Item -> real, m: nat)
      requires AllHaveFields(items) && Layout(e, items, vh, measureQuestion, measureSlider).Success?
      requires m < |items| && items[m]["type"].VStr?
      requires KindOf(items[m]["type"].s, ResponseTypes) == Some(NoResponse)
      ensures HarvestAsWritten(Layout(e, items, vh, measureQuestion, measureSlider).value.0[m]).None?
    {
      var laid := Layout(e, items, vh, measureQuestion, measureSlider).value.0;
      PlacedAt(e, Responses(items, measureQuestion, measureSlider), |items|, vh, m);
      ResponsesAt(items, measureQuestion, measureSlider, m);
      ItemResponseEffect(items[m], measureQuestion(items[m]), measureSlider(items[m]));
      ReadableCtrlHarvested(laid[m]);
    }

    /** On a laid-out form, the `getData` loop as written raises at the
        first heading or description, and reads the whole form only when
        it has neither. */
    lemma LayoutUnreadableAsWritten(e: Edges, items: seq<Item>, vh: real, measureQuestion: Item -> real,
                                    measureSlider: Item -> real)
      requires AllHaveFields(items) && Layout(e, items, vh, measureQuestion, measureSlider).Success?
      ensures var r := FirstUnreadableAsWritten(Layout(e, items, vh, measureQuestion, measureSlider).value.0, 0);
              && (r.Some? ==> && r.value < |items| && NoResponseItem(items[r.value])
                              && forall m :: 0 <= m < r.value ==> !NoResponseItem(items[m]))
              && (r.None? <==> forall m :: 0 <= m < |items| ==> !NoResponseItem(items[m]))
    {
      var laid := Layout(e, items, vh, measureQuestion, measureSlider).value.0;
      forall m | 0 <= m < |items| ensures HarvestAsWritten(laid[m]).None? <==> NoResponseItem(items[m]) {
        PlacedAt(e, Responses(items, measureQuestion, measureSlider), |items|, vh, m);
        ResponsesAt(items, measureQuestion, measureSlider, m);
        ItemResponseEffect(items[m], measureQuestion(items[m]), measureSlider(items[m]));
        ReadableCtrlHarvested(laid[m]);
      }
    }

    /** A form of one heading lays out, and `getData` as written then
        fails on it. */
    lemma HeadingFormUnreadableAsWritten(e: Edges, vh: real, measureQuestion: Item -> real, measureSlider: Item -> real)
      ensures var heading := map["itemWidth" := VReal(0.8), "responseWidth" := VReal(0.8), "type" := VStr("heading"),
                                 "layout" := VStr("horiz"), "options" := VNone];
              && Layout(e, [heading], vh, measureQuestion, measureSlider).Success?
              && HarvestAsWritten(Layout(e, [heading], vh, measureQuestion, measureSlider).value.0[0]).None?
              && Harvest(Layout(e, [heading], vh, measureQuestion, measureSlider).value.0[0]).Some?
    {
      var heading := map["itemWidth" := VReal(0.8), "responseWidth" := VReal(0.8), "type" := VStr("heading"),
                         "layout" := VStr("horiz"), "options" := VNone];
      assert KindOf("heading", ResponseTypes) == Some(NoResponse);
      assert HasFields(heading);
      ItemResponseEffect(heading, measureQuestion(heading), measureSlider(heading));
      LayoutSingle(e, heading, vh, measureQuestion, measureSlider);
      NoResponseUnreadableAsWritten(e, [heading], vh, measureQuestion, measureSlider, 0);
      LayoutReadable(e, [heading], vh, measureQuestion, measureSlider);
    }

    /** A single item lays out when its response can be set up. */
    lemma LayoutSingle(e: Edges, item: Item, vh: real, measureQuestion: Item -> real, measureSlider: Item -> real)
      requires HasFields(item) && ItemResponse(item, measureQuestion(item), measureSlider(item)).Success?
      ensures AllHaveFields([item]) && Layout(e, [item], vh, measureQuestion, measureSlider).Success?
    {
      assert AllHaveFields([item]);
      ResponsesAt([item], measureQuestion, measureSlider, 0);
    }

    /** The first error ends the layout: no later item changes it. */
    lemma {:induction false} PlacedFailurePersists(e: Edges, responses: seq<Result<(Item, Row), FormError>>,
                                                   n: nat, m: nat, vh: real)
      requires n <= m <= |responses|
      requires Placed(e, responses, n, vh).Failure?
      ensures Placed(e, responses, m, vh) == Placed(e, responses, n, vh)
      decreases m - n
    {
      if n < m {
        PlacedFailurePersists(e, responses, n, m - 1, vh);
      }
    }

    /** `_setBaseYPosition`: one more base position, and the stack one
        item deeper. */
    method SetBaseYPosition(respHeight: real, questionHeight: real, layout: Value)
      modifies this`baseYpositions, this`virtualHeight
      ensures baseYpositions == old(baseYpositions)
                                + [RowBaseY(Row(respHeight, questionHeight, layout == VStr("vert")), old(virtualHeight), itemPadding)]
      ensures virtualHeight == old(virtualHeight) - RowIncrement(Row(respHeight, questionHeight, layout == VStr("vert")), itemPadding)
    {
      baseYpositions := baseYpositions
                        + [virtualHeight - Max(respHeight, questionHeight)
                           + (if layout == VStr("vert") then respHeight / 2.0 else 0.0) - itemPadding];
      virtualHeight := virtualHeight - (Max(respHeight, questionHeight) + itemPadding);
    }

    /** `_setDecorations`' visible fraction of the stack. */
    function FractionVisible(): (r: Result<real, FormError>)
      reads this
      ensures r.Failure? <==> virtualHeight == 0.0
      ensures r.Success? ==> r.value * -virtualHeight == height
    {
      if virtualHeight == 0.0 then Failure(DivisionByZero) else Success(height / -virtualHeight)
    }

    /** A form of positive height below a non-empty stack needs a scroll
        bar exactly when the stack is taller than the form. */
    lemma ScrollBarWhenTaller()
      requires height > 0.0 && virtualHeight < 0.0
      ensures FractionVisible().Success? && (FractionVisible().value < 1.0 <==> -virtualHeight > height)
    {
      var f := FractionVisible().value;
      var d := -virtualHeight;
      assert f * d == height;
      ScaleByPositive(f, 1.0, d);
      assert f < 1.0 <==> height < d;
      assert FractionVisible().value == f;
    }

    /** The decorations a form of this state ends with: the border, and the
        scroll bar when less than all of the stack is visible. */
    function DecorationsFor(): seq<Decoration>
      reads this
    {
      if FractionVisible().Success? && FractionVisible().value < 1.0 then [Border, ScrollBar] else [Border]
    }

    /** `_setDecorations`. The border is in place before the division that
        fails for an empty stack. */
    method SetDecorations() returns (r: Result<(), FormError>)
      modifies this`decorations
      ensures decorations == DecorationsFor()
      ensures r.Failure? <==> virtualHeight == 0.0
    {
      decorations := [Border];
      if virtualHeight == 0.0 {
        return Failure(DivisionByZero);
      }
      var fractionVisible := height / -virtualHeight;
      if fractionVisible < 1.0 {
        decorations := decorations + [ScrollBar];
      }
      return Success(());
    }

    /** `_doLayout` with the measured heights of each item's question box
        and slider as inputs. When it fails, the form under construction
        is abandoned, so the state it leaves behind is not described. */
    method DoLayout(measureQuestion: Item -> real, measureSlider: Item -> real) returns (r: Result<(), FormError>)
      requires AllHaveFields(items)
      modifies this`leftEdge, this`rightEdge, this`topEdge, this`items, this`baseYpositions, this`virtualHeight,
               this`markerPos, this`decorations
      ensures Edges(leftEdge, rightEdge, topEdge) == LayoutEdges()
      ensures var lay := Layout(LayoutEdges(), old(items), old(virtualHeight), measureQuestion, measureSlider);
              && (lay.Failure? ==> r == Failure(lay.error))
              && (lay.Success? ==>
                    && items == lay.value.0
                    && baseYpositions == old(baseYpositions) + StackYs(lay.value.1, old(virtualHeight), itemPadding)
                    && virtualHeight == old(virtualHeight) - StackDepth(lay.value.1, itemPadding)
                    && markerPos == 1.0
                    && decorations == DecorationsFor()
                    && (r.Failure? <==> virtualHeight == 0.0))
    {
      leftEdge := posX - width / 2.0;
      rightEdge := posX + width / 2.0;
      topEdge := posY + height / 2.0;
      r := LayOutItems(measureQuestion, measureSlider);
      if r.Failure? {
        return;
      }
      markerPos := 1.0;
      r := SetDecorations();
    }

    /** The loop of `_doLayout`: every item laid out in turn, each one's
        base position appended. */
    method LayOutItems(measureQuestion: Item -> real, measureSlider: Item -> real) returns (r: Result<(), FormError>)
      requires AllHaveFields(items)
      requires Edges(leftEdge, rightEdge, topEdge) == LayoutEdges()
      modifies this`items, this`baseYpositions, this`virtualHeight
      ensures var lay := Layout(LayoutEdges(), old(items), old(virtualHeight), measureQuestion, measureSlider);
              && (lay.Failure? ==> r == Failure(lay.error))
              && (lay.Success? ==>
                    && r == Success(())
                    && items == lay.value.0
                    && baseYpositions == old(baseYpositions) + StackYs(lay.value.1, old(virtualHeight), itemPadding)
                    && virtualHeight == old(virtualHeight) - StackDepth(lay.value.1, itemPadding))
    {
      ghost var vh0 := virtualHeight;
      ghost var ys0 := baseYpositions;
      ghost var input := items;
      ghost var responses := Responses(input, measureQuestion, measureSlider);
      ghost var done: seq<Item> := [];
      ghost var rows: seq<Row> := [];
      ProgressStart(LayoutEdges(), input, responses, vh0, ys0);
      var i := 0;
      while i < |items|
        invariant Progress(LayoutEdges(), input, responses, vh0, ys0, i, done, rows, items, baseYpositions, virtualHeight)
        decreases |input| - i
      {
        ghost var (before, ysBefore, vhBefore) := (items, baseYpositions, virtualHeight);
        var laid := LayOutItem(i, measureQuestion, measureSlider, input, responses, done);
        if laid.Failure? {
          ProgressStops(LayoutEdges(), input, responses, vh0, ys0, i, done, rows, before, ysBefore, vhBefore, laid);
          return Failure(laid.error);
        }
        ProgressStep(LayoutEdges(), input, responses, vh0, ys0, i, done, rows, before, ysBefore, vhBefore,
                     laid, items, baseYpositions, virtualHeight);
        done := done + [laid.value.0];
        rows := rows + [laid.value.1];
        i := i + 1;
      }
      ProgressEnd(LayoutEdges(), input, responses, vh0, ys0, i, done, rows, items, baseYpositions, virtualHeight);
      r := Success(());
    }

    /** What the layout loop has done after `i` of the `input` items: those
        laid out as `done` with heights `rows`, the rest untouched, one
        base position per laid-out item after the `ys0` there were, and the
        stack as deep as the rows below `vh0`. */
    ghost predicate Progress(e: Edges, input: seq<Item>, responses: seq<Result<(Item, Row), FormError>>,
                             vh0: real, ys0: seq<real>, i: nat, done: seq<Item>, rows: seq<Row>,
                             items: seq<Item>, ys: seq<real>, vh: real)
    {
      && i <= |input| == |responses| == |items|
      && |done| == |rows| == i
      && Spliced(items, done, input)
      && ys == ys0 + StackYs(rows, vh0, itemPadding)
      && vh == vh0 - StackDepth(rows, itemPadding)
      && Placed(e, responses, i, vh0) == Success((done, rows))
    }

    lemma ProgressStart(e: Edges, input: seq<Item>, responses: seq<Result<(Item, Row), FormError>>, vh0: real, ys0: seq<real>)
      requires |input| == |responses|
      ensures Progress(e, input, responses, vh0, ys0, 0, [], [], input, ys0, vh0)
    {
      AppendEmpty(ys0, []);
      SplicedEnds(input, [], input);
    }

    /** One more item laid out extends the progress by it. */
    lemma ProgressStep(e: Edges, input: seq<Item>, responses: seq<Result<(Item, Row), FormError>>,
                       vh0: real, ys0: seq<real>, i: nat, done: seq<Item>, rows: seq<Row>,
                       before: seq<Item>, ysBefore: seq<real>, vhBefore: real,
                       laid: Result<(Item, Row), FormError>, items: seq<Item>, ys: seq<real>, vh: real)
      requires i < |input|
      requires Progress(e, input, responses, vh0, ys0, i, done, rows, before, ysBefore, vhBefore)
      requires laid == PlaceNext(e, responses[i], vhBefore) && laid.Success?
      requires items == before[i := laid.value.0]
      requires ys == ysBefore + [RowBaseY(laid.value.1, vhBefore, itemPadding)]
      requires vh == vhBefore - RowIncrement(laid.value.1, itemPadding)
      ensures Progress(e, input, responses, vh0, ys0, i + 1, done + [laid.value.0], rows + [laid.value.1], items, ys, vh)
    {
      PlacedStep(e, responses, i, vh0, done, rows, laid);
      StackStep(ys0, rows, laid.value.1, vh0, itemPadding);
      SplicedStep(before, done, input, laid.value.0);
    }

    /** An item that fails ends the layout with its error. */
    lemma ProgressStops(e: Edges, input: seq<Item>, responses: seq<Result<(Item, Row), FormError>>,
                        vh0: real, ys0: seq<real>, i: nat, done: seq<Item>, rows: seq<Row>,
                        before: seq<Item>, ysBefore: seq<real>, vhBefore: real, laid: Result<(Item, Row), FormError>)
      requires i < |input|
      requires Progress(e, input, responses, vh0, ys0, i, done, rows, before, ysBefore, vhBefore)
      requires laid == PlaceNext(e, responses[i], vhBefore) && laid.Failure?
      ensures Placed(e, responses, |input|, vh0) == Failure(laid.error)
    {
      PlacedStep(e, responses, i, vh0, done, rows, laid);
      PlacedFailurePersists(e, responses, i + 1, |input|, vh0);
    }

    lemma ProgressEnd(e: Edges, input: seq<Item>, responses: seq<Result<(Item, Row), FormError>>,
                      vh0: real, ys0: seq<real>, i: nat, done: seq<Item>, rows: seq<Row>,
                      items: seq<Item>, ys: seq<real>, vh: real)
      requires Progress(e, input, responses, vh0, ys0, i, done, rows, items, ys, vh) && i == |input|
      ensures Placed(e, responses, |input|, vh0) == Success((items, rows))
      ensures ys == ys0 + StackYs(rows, vh0, itemPadding) && vh == vh0 - StackDepth(rows, itemPadding)
    {
      SplicedEnds(items, done, input);
    }

    /** The body of `_doLayout`'s loop for item `i`: its response set up,
        its question placed at the current depth (`_setQuestion`,
        `_setResponse`), then its base position (`_setBaseYPosition`).
        The item is placed as the layout places it, or fails with nothing
        changed. */
    method LayOutItem(i: nat, measureQuestion: Item -> real, measureSlider: Item -> real, ghost input: seq<Item>,
                      ghost responses: seq<Result<(Item, Row), FormError>>, ghost done: seq<Item>)
      returns (laid: Result<(Item, Row), FormError>)
      requires |done| == i < |input| && AllHaveFields(input) && Spliced(items, done, input)
      requires responses == Responses(input, measureQuestion, measureSlider)
      requires Edges(leftEdge, rightEdge, topEdge) == LayoutEdges()
      modifies this`items, this`baseYpositions, this`virtualHeight
      ensures laid == PlaceNext(LayoutEdges(), responses[i], old(virtualHeight))
      ensures laid.Failure? ==> unchanged(this)
      ensures laid.Success? ==>
                && items == old(items)[i := laid.value.0]
                && baseYpositions == old(baseYpositions) + [RowBaseY(laid.value.1, old(virtualHeight), itemPadding)]
                && virtualHeight == old(virtualHeight) - RowIncrement(laid.value.1, itemPadding)
    {
      SplicedStep(items, done, input, items[i]);
      ResponsesAt(input, measureQuestion, measureSlider, i);
      var item := items[i];
      var questionHeight := measureQuestion(item);
      var response := ItemResponse(item, questionHeight, measureSlider(item));
      if response.Failure? {
        return Failure(response.error);
      }
      var (withResponse, row) := response.value;
      ItemResponseRow(item, questionHeight, measureSlider(item));
      var newItem := WithQuestion(Edges(leftEdge, rightEdge, topEdge), withResponse, virtualHeight, questionHeight);
      SetBaseYPosition(row.resp, row.question, item["layout"]);
      items := items[i := newItem];
      laid := Success((newItem, row));
    }

    /** `_getScrollOffset`: how far the items move up for the marker. The
        offset is 0 with the marker at its start (1) and when the lowest
        item is already within a form height of the centre; in between it
        moves linearly down to the lowest position plus the height less
        the padding, at marker 0. An empty form has no lowest position. */
    function ScrollOffset(): (r: Result<real, FormError>)
      reads this
      ensures r.Failure? <==> |baseYpositions| == 0
      ensures r.Success? && markerPos == 1.0 ==> r.value == 0.0
      ensures r.Success? && MinOf(baseYpositions) > -height ==> r.value == 0.0
      ensures r.Success? && MinOf(baseYpositions) <= -height ==>
                r.value == (1.0 - markerPos) * (MinOf(baseYpositions) + height - itemPadding)
    {
      if |baseYpositions| == 0 then Failure(NoPositions)
      else
        var sizeOffset := (1.0 - markerPos) * (height - itemPadding);
        var maxItemPos := MinOf(baseYpositions);
        if maxItemPos > -height then Success(0.0)
        else
          ScrollFactor(markerPos, maxItemPos, height - itemPadding);
          Success(maxItemPos - markerPos * maxItemPos + sizeOffset)
    }

    /** `_inRange`: a position strictly within one form height of the
        centre, above or below. */
    function InRange(y: real): (r: bool)
      ensures r <==> -height < y < height
    {
      y < height && y > -height
    }

    /** Where `_drawCtrls` puts the controls of item `idx`. */
    function ElementY(idx: nat): (r: Result<real, FormError>)
      reads this
      requires idx < |baseYpositions|
      ensures r.Success? && r.value == height / 2.0 + baseYpositions[idx] - ScrollOffset().value
    {
      match ScrollOffset()
      case Success(offset) => Success(height / 2.0 + baseYpositions[idx] - offset)
    }

    /** With the marker at its start, an item is drawn exactly when its
        base position lies between one and a half heights below the centre
        and half a height above it. */
    lemma DrawnAtStart(idx: nat)
      requires idx < |baseYpositions| && markerPos == 1.0
      ensures InRange(ElementY(idx).value) <==> -1.5 * height < baseYpositions[idx] < height / 2.0
    {
    }

    /** `getData`: writes `response` and `rt` into every item with a
        control and sets `complete` to whether none is unanswered. The
        `None` control of a heading or a description is skipped (see
        `HarvestAsWritten` for the loop as written, which reads its
        `.text`); a value under `responseCtrl` that is no control raises,
        leaving the items before it collected and `complete` as it was. */
    method GetData() returns (r: Result<seq<Item>, FormError>)
      modifies this`items, this`complete
      ensures var bad := FirstUnreadable(old(items), 0);
              && (bad.None? ==> && Readable(old(items)) && items == HarvestAll(old(items)) && r == Success(items)
                                && (complete <==> forall m :: 0 <= m < |items| ==> !Unanswered(items[m])))
              && (bad.Some? ==> && r == Failure(NoResponseText) && complete == old(complete)
                                && Readable(old(items)[..bad.value])
                                && items == HarvestAll(old(items)[..bad.value]) + old(items)[bad.value..])
    {
      ghost var input := items;
      var nIncomplete := 0;
      var i := 0;
      while i < |items|
        invariant 0 <= i <= |items| == |input|
        invariant Readable(input[..i])
        invariant items == HarvestAll(input[..i]) + input[i..]
        invariant nIncomplete == CountUnanswered(HarvestAll(input[..i]))
        invariant FirstUnreadable(input, 0) == FirstUnreadable(input, i)
        invariant complete == old(complete)
      {
        HeadAfter(HarvestAll(input[..i]), input, i);
        var collected, unanswered := CollectResponse(items[i]);
        if collected.None? {
          return Failure(NoResponseText);
        }
        HarvestStep(input, i);
        SpliceAt(HarvestAll(input[..i]), input[i..], collected.value);
        items := items[i := collected.value];
        if unanswered {
          nIncomplete := nIncomplete + 1;
        }
        i := i + 1;
      }
      assert input[..i] == input;
      CountUnansweredZero(items);
      complete := nIncomplete == 0;
      return Success(items);
    }

    /** The body of `getData`'s loop for one item: its response and
        response time from its control, and whether it counts as
        incomplete. */
    static method CollectResponse(item: Item) returns (collected: Option<Item>, unanswered: bool)
      ensures collected == Harvest(item)
      ensures collected.Some? ==> (unanswered <==> Unanswered(collected.value))
    {
      if "responseCtrl" !in item || item["responseCtrl"] == VCtrl(NoCtrl) {
        return Some(item), false;
      }
      var responseCtrl := item["responseCtrl"];
      var answered := item;
      if responseCtrl.VCtrl? && responseCtrl.ctrl.Rating? {
        answered := answered["response" := OptionalReal(responseCtrl.ctrl.rating)];
      } else if responseCtrl.VCtrl? && responseCtrl.ctrl.Text? {
        answered := answered["response" := VStr(responseCtrl.ctrl.text)];
      } else {
        return None, false;
      }
      unanswered := answered["response"] == VNone || answered["response"] == VStr("");
      if responseCtrl.ctrl.Rating? {
        answered := answered["rt" := OptionalReal(responseCtrl.ctrl.rt)];
      } else {
        answered := answered["rt" := VNone];
      }
      collected := Some(answered);
    }

    /** `formComplete`: collect the responses, then report `complete`. */
    method FormComplete() returns (r: Result<bool, FormError>)
      modifies this`items, this`complete
      ensures var bad := FirstUnreadable(old(items), 0);
              && (bad.None? ==> && Readable(old(items)) && items == HarvestAll(old(items)) && r == Success(complete)
                                && (complete <==> forall m :: 0 <= m < |items| ==> !Unanswered(items[m])))
              && (bad.Some? ==> && r == Failure(NoResponseText) && complete == old(complete)
                                && Readable(old(items)[..bad.value])
                                && items == HarvestAll(old(items)[..bad.value]) + old(items)[bad.value..])
    {
      var data := GetData();
      if data.Failure? {
        return Failure(data.error);
      }
      return Success(complete);
    }
  }

  /** The smallest of a non-empty list of positions, `min()`. */
  function MinOf(xs: seq<real>): (m: real)
    requires |xs| > 0
    ensures m in xs && forall k :: 0 <= k < |xs| ==> m <= xs[k]
    decreases |xs|
  {
    if |xs| == 1 then xs[0]
    else
      var rest := MinOf(xs[1..]);
      assert forall k :: 1 <= k < |xs| ==> xs[k] == xs[1..][k - 1];
      if xs[0] <= rest then xs[0] else rest
  }

  /** `items` is `done` followed by what is left of `input` after it. */
  ghost predicate Spliced<T>(items: seq<T>, done: seq<T>, input: seq<T>)
  {
    && |done| <= |input| == |items|
    && (forall k :: 0 <= k < |done| ==> items[k] == done[k])
    && (forall k :: |done| <= k < |input| ==> items[k] == input[k])
  }

  lemma SplicedStep<T>(items: seq<T>, done: seq<T>, input: seq<T>, x: T)
    requires Spliced(items, done, input) && |done| < |input|
    ensures items[|done|] == input[|done|]
    ensures Spliced(items[|done| := x], done + [x], input)
  {
  }

  lemma SplicedEnds<T>(items: seq<T>, done: seq<T>, input: seq<T>)
    ensures Spliced(input, [], input)
    ensures Spliced(items, done, input) && |done| == |input| ==> items == done
  {
  }

  lemma AppendEmpty<T>(prefix: seq<T>, rest: seq<T>)
    requires |rest| == 0
    ensures prefix + rest == prefix
  {
  }

  /** The element after a prefix, in a concatenation with a suffix. */
  lemma HeadAfter<T>(prefix: seq<T>, s: seq<T>, i: nat)
    requires i < |s|
    ensures (prefix + s[i..])[|prefix|] == s[i] && s[i..][1..] == s[i + 1..]
  {
  }

  /** Overwriting the first element after a prefix. */
  lemma SpliceAt<T>(prefix: seq<T>, rest: seq<T>, x: T)
    requires |rest| > 0
    ensures (prefix + rest)[|prefix| := x] == (prefix + [x]) + rest[1..]
  {
  }

  /** `_getScrollOffset`'s sum as one product. */
  lemma ScrollFactor(m: real, p: real, h: real)
    ensures p - m * p + (1.0 - m) * h == (1.0 - m) * (p + h)
    ensures m == 1.0 ==> (1.0 - m) * (p + h) == 0.0
  {
  }

  lemma ScaleByPositive(a: real, b: real, d: real)
    requires d > 0.0
    ensures a < b <==> a * d < b * d
  {
    if a < b {
      assert (b - a) * d > 0.0;
    } else {
      assert (a - b) * d >= 0.0;
    }
  }

}
