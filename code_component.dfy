/** The Builder's Code component: the parameters it declares, the
    inherited timing parameters it removes, and the eleven writers that
    copy a parameter's code into the script being generated. */
module CodeComponent {
  import opened Outcomes

  /** A component parameter: its value as `str()` gives it, its type, the
      values a dropdown allows and how it updates (`None` for none). */
  datatype Param = Param(val: string, valType: string, allowedVals: seq<string>, updates: Option<string>)

  /** The order the parameters are shown in. */
  const ParamOrder: seq<string> :=
    ["name", "Code Type",
     "Before Experiment", "Begin Experiment", "Begin Routine",
     "Each Frame", "End Routine", "End Experiment",
     "Before JS Experiment", "Begin JS Experiment", "Begin JS Routine",
     "Each JS Frame", "End JS Routine", "End JS Experiment"]

  /** The Python code parameters, in order. */
  const PythonKeys: seq<string> :=
    ["Before Experiment", "Begin Experiment", "Begin Routine", "Each Frame", "End Routine", "End Experiment"]

  /** The JavaScript code parameters, in order. */
  const JSKeys: seq<string> :=
    ["Before JS Experiment", "Begin JS Experiment", "Begin JS Routine", "Each JS Frame", "End JS Routine", "End JS Experiment"]

  /** The inherited parameters the component deletes. */
  const TrimmedKeys: seq<string> :=
    ["startType", "startVal", "startEstim", "stopVal", "stopType", "durationEstim", "saveStartStop", "syncScreenRefresh"]

  /** The code languages the `Code Type` dropdown offers. */
  const CodeTypes: seq<string> := ["Py", "JS", "Both", "Auto->JS"]

  /** `if not codeType`: a missing or empty code type falls back to the
      builder's `codeComponentLanguage` preference. */
  function CodeTypeOf(codeType: Option<string>, preferred: string): (r: string)
    ensures codeType.Some? && codeType.value != "" ==> r == codeType.value
    ensures codeType.None? || codeType.value == "" ==> r == preferred
  {
    match codeType
    case Some(t) => if t != "" then t else preferred
    case None => preferred
  }

  /** A code parameter holding `code`. */
  function Code(code: string): Param
  {
    Param(code, "extendedCode", [], Some("constant"))
  }

  /** The arguments the component's code parameters start from. */
  datatype Sources = Sources(beforeExp: string, beginExp: string, beginRoutine: string,
                             eachFrame: string, endRoutine: string, endExperiment: string)

  /** The argument a Python code parameter starts from. */
  function PythonSource(src: Sources, key: string): string
    requires key in PythonKeys
  {
    if key == "Before Experiment" then src.beforeExp
    else if key == "Begin Experiment" then src.beginExp
    else if key == "Begin Routine" then src.beginRoutine
    else if key == "Each Frame" then src.eachFrame
    else if key == "End Routine" then src.endRoutine
    else src.endExperiment
  }

  /** The parameters before trimming: the inherited ones with the code
      type and the twelve code parameters set, the six JavaScript ones
      empty. */
  function Declared(inherited: map<string, Param>, src: Sources, codeType: string): map<string, Param>
  {
    map k | k in inherited.Keys + {"Code Type"} + KeySet(PythonKeys) + KeySet(JSKeys) ::
      if k == "Code Type" then Param(codeType, "str", CodeTypes, None)
      else if k in PythonKeys then Code(PythonSource(src, k))
      else if k in JSKeys then Code("")
      else inherited[k]
  }

  /** The keys a sequence of keys names. */
  function KeySet(keys: seq<string>): (r: set<string>)
    ensures forall k :: k in r <==> k in keys
  {
    set k | k in keys
  }

  /** The parameters the constructor leaves. */
  function InitialParams(inherited: map<string, Param>, src: Sources, codeType: string): map<string, Param>
  {
    Declared(inherited, src, codeType) - KeySet(TrimmedKeys)
  }

  /** What the constructor leaves: every code parameter and the code type
      present with its value, none of the trimmed keys, and every other
      inherited parameter as it was. */
  lemma InitialParamsEffect(inherited: map<string, Param>, src: Sources, codeType: string)
    ensures var ps := InitialParams(inherited, src, codeType);
            && "Code Type" in ps && ps["Code Type"] == Param(codeType, "str", CodeTypes, None)
            && (forall k :: k in PythonKeys ==> k in ps && ps[k] == Code(PythonSource(src, k)))
            && (forall k :: k in JSKeys ==> k in ps && ps[k] == Code(""))
            && (forall k :: k in TrimmedKeys ==> k !in ps)
            && (forall k :: k in inherited && k !in TrimmedKeys && k != "Code Type" && k !in PythonKeys && k !in JSKeys ==>
                             k in ps && ps[k] == inherited[k])
            && ps.Keys == (inherited.Keys + {"Code Type"} + KeySet(PythonKeys) + KeySet(JSKeys)) - KeySet(TrimmedKeys)
  {
    KeysDisjoint();
    var ps := InitialParams(inherited, src, codeType);
    var declared := Declared(inherited, src, codeType);
    assert ps == declared - KeySet(TrimmedKeys);
    CodeTypeDeclared(inherited, src, codeType);
    PythonDeclared(inherited, src, codeType);
    JSDeclared(inherited, src, codeType);
  }

  lemma CodeTypeDeclared(inherited: map<string, Param>, src: Sources, codeType: string)
    ensures "Code Type" in Declared(inherited, src, codeType)
    ensures Declared(inherited, src, codeType)["Code Type"] == Param(codeType, "str", CodeTypes, None)
  {
  }

  lemma PythonDeclared(inherited: map<string, Param>, src: Sources, codeType: string)
    ensures forall k :: k in PythonKeys ==>
              k in Declared(inherited, src, codeType) && Declared(inherited, src, codeType)[k] == Code(PythonSource(src, k))
  {
    KeysDisjoint();
  }

  lemma JSDeclared(inherited: map<string, Param>, src: Sources, codeType: string)
    ensures forall k :: k in JSKeys ==>
              k in Declared(inherited, src, codeType) && Declared(inherited, src, codeType)[k] == Code("")
  {
    KeysDisjoint();
  }

  /** No trimmed key is a key the component declares, and the code type
      is neither a Python nor a JavaScript parameter. */
  lemma KeysDisjoint()
    ensures forall k :: k in TrimmedKeys ==> k !in PythonKeys && k !in JSKeys && k != "Code Type"
    ensures "Code Type" !in PythonKeys && "Code Type" !in JSKeys
    ensures forall k :: k in PythonKeys ==> k !in JSKeys
  {
  }

  /** `buff.writeIndentedLines(text + '\n')` when the text is not empty,
      nothing otherwise. */
  function Emitted(text: string): (r: seq<string>)
    ensures |r| <= 1
    ensures r == [] <==> text == ""
    ensures |r| == 1 ==> |r[0]| == |text| + 1 && r[0][..|text|] == text && r[0][|text|] == '\n'
  {
    if |text| > 0 then [text + "\n"] else []
  }

  /** The eleven writers. */
  datatype Writer =
    | PreCode | InitCode | InitCodeJS | RoutineStartCode | RoutineStartCodeJS
    | FrameCode | FrameCodeJS | RoutineEndCode | RoutineEndCodeJS
    | ExperimentEndCode | ExperimentEndCodeJS

  /** The parameter each writer copies. */
  function WriterKey(w: Writer): string
  {
    match w
    case PreCode => PythonKeys[0]              // Before Experiment
    case InitCode => PythonKeys[1]             // Begin Experiment
    case RoutineStartCode => PythonKeys[2]     // Begin Routine
    case FrameCode => PythonKeys[3]            // Each Frame
    case RoutineEndCode => PythonKeys[4]       // End Routine
    case ExperimentEndCode => PythonKeys[5]    // End Experiment
    case InitCodeJS => JSKeys[1]               // Begin JS Experiment
    case RoutineStartCodeJS => JSKeys[2]       // Begin JS Routine
    case FrameCodeJS => JSKeys[3]              // Each JS Frame
    case RoutineEndCodeJS => JSKeys[4]         // End JS Routine
    case ExperimentEndCodeJS => JSKeys[5]      // End JS Experiment
  }

  /** The writers that produce JavaScript. */
  predicate IsJS(w: Writer)
  {
    w in {InitCodeJS, RoutineStartCodeJS, FrameCodeJS, RoutineEndCodeJS, ExperimentEndCodeJS}
  }

  /** The parameters are shown as the name, the code type, then the six
      Python and the six JavaScript code parameters, and these twelve are
      different keys. */
  lemma CodeKeysDistinct()
    ensures ParamOrder == ["name", "Code Type"] + PythonKeys + JSKeys
    ensures forall i, j :: 0 <= i < j < |PythonKeys| ==> PythonKeys[i] != PythonKeys[j]
    ensures forall i, j :: 0 <= i < j < |JSKeys| ==> JSKeys[i] != JSKeys[j]
    ensures forall i, j :: 0 <= i < |PythonKeys| && 0 <= j < |JSKeys| ==> PythonKeys[i] != JSKeys[j]
  {
    // equal lengths, told apart by one character
    assert PythonKeys[1][6] != JSKeys[2][6];
    assert PythonKeys[2][0] != JSKeys[3][0];
    assert PythonKeys[5][4] != JSKeys[4][4];
    assert PythonKeys[0][0] != JSKeys[5][0];
  }

  /** The writer of the `i`-th Python parameter. */
  function PythonWriter(i: nat): (w: Writer)
    requires i < |PythonKeys|
    ensures WriterKey(w) == PythonKeys[i] && !IsJS(w)
  {
    [PreCode, InitCode, RoutineStartCode, FrameCode, RoutineEndCode, ExperimentEndCode][i]
  }

  /** The writer of the `i`-th JavaScript parameter; the first one,
      `Before JS Experiment`, has none. */
  function JSWriter(i: nat): (w: Writer)
    requires 1 <= i < |JSKeys|
    ensures WriterKey(w) == JSKeys[i] && IsJS(w)
  {
    [InitCodeJS, RoutineStartCodeJS, FrameCodeJS, RoutineEndCodeJS, ExperimentEndCodeJS][i - 1]
  }

  /** Each writer reads a parameter of its own language and no two
      writers read the same parameter; `Before JS Experiment` is the one
      code parameter no writer reads. */
  lemma WriterKeys()
    ensures forall w :: IsJS(w) ==> WriterKey(w) in JSKeys[1..]
    ensures forall w :: !IsJS(w) ==> WriterKey(w) in PythonKeys
    ensures forall w, v :: WriterKey(w) == WriterKey(v) ==> w == v
    ensures forall w :: WriterKey(w) != JSKeys[0]
  {
    CodeKeysDistinct();
    assert forall w :: IsJS(w) ==> WriterKey(w) in JSKeys[1..] by {
      assert JSKeys[1..] == [JSKeys[1], JSKeys[2], JSKeys[3], JSKeys[4], JSKeys[5]];
    }
  }

  /** A newly made component's JavaScript writers write nothing, and its
      Python writers write their argument, if any. */
  lemma FreshWriters(inherited: map<string, Param>, src: Sources, codeType: string, w: Writer)
    ensures var ps := InitialParams(inherited, src, codeType);
            && WriterKey(w) in ps
            && (IsJS(w) ==> Emitted(ps[WriterKey(w)].val) == [])
            && (!IsJS(w) ==> Emitted(ps[WriterKey(w)].val) == Emitted(PythonSource(src, WriterKey(w))))
  {
    WriterKeys();
    InitialParamsEffect(inherited, src, codeType);
  }

  /** Deleting one more key, when it is there, is removing one more key
      of the sequence. */
  lemma TrimStep(m: map<string, Param>, keys: seq<string>, i: nat)
    requires i < |keys|
    ensures var left := m - KeySet(keys[..i]);
            && (keys[i] in left ==> left - {keys[i]} == m - KeySet(keys[..i + 1]))
            && (keys[i] !in left ==> left == m - KeySet(keys[..i + 1]))
  {
    assert KeySet(keys[..i + 1]) == KeySet(keys[..i]) + {keys[i]};
  }

  /** The script being generated, as the chunks written into it
      (indentation is not modelled). */
  class Buffer {
    var lines: seq<string>

    constructor ()
      ensures lines == []
    {
      lines := [];
    }

    method WriteIndentedLines(text: string)
      modifies this
      ensures lines == old(lines) + [text]
    {
      lines := lines + [text];
    }
  }

  class CodeComponent {
    var params: map<string, Param>
    var order: seq<string>
    const componentType: string
    const targets: seq<string>

    /** Every code parameter a writer may read is there. */
    predicate Valid()
      reads this
    {
      (forall k :: k in PythonKeys ==> k in params) && (forall k :: k in JSKeys ==> k in params)
    }

    /** `CodeComponent.__init__`; `inherited` holds the parameters the base
        component declares and `preferred` the builder's preferred code
        language. */
    constructor (inherited: map<string, Param>, src: Sources, codeType: Option<string>, preferred: string)
      ensures Valid()
      ensures params == InitialParams(inherited, src, CodeTypeOf(codeType, preferred))
      ensures order == ParamOrder && componentType == "Code" && targets == ["PsychoPy", "PsychoJS"]
    {
      componentType := "Code";
      targets := ["PsychoPy", "PsychoJS"];
      order := ParamOrder;
      var declared := Declared(inherited, src, CodeTypeOf(codeType, preferred));
      var ps := declared;
      for i := 0 to |TrimmedKeys|
        invariant ps == declared - KeySet(TrimmedKeys[..i])
      {
        TrimStep(declared, TrimmedKeys, i);
        if TrimmedKeys[i] in ps {
          ps := ps - {TrimmedKeys[i]};
        }
      }
      assert TrimmedKeys[..|TrimmedKeys|] == TrimmedKeys;
      params := ps;
      InitialParamsEffect(inherited, src, CodeTypeOf(codeType, preferred));
    }

    /** The body the eleven writers share. */
    method Write(w: Writer, buff: Buffer)
      requires Valid()
      modifies buff
      ensures WriterKey(w) in params
      ensures buff.lines == old(buff.lines) + Emitted(params[WriterKey(w)].val)
    {
      WriterKeys();
      var code := params[WriterKey(w)].val;
      if |code| > 0 {
        buff.WriteIndentedLines(code + "\n");
      }
    }

    method WritePreCode(buff: Buffer)
      requires Valid()
      modifies buff
      ensures buff.lines == old(buff.lines) + Emitted(params["Before Experiment"].val)
    {
      Write(PreCode, buff);
    }

    method WriteInitCode(buff: Buffer)
      requires Valid()
      modifies buff
      ensures buff.lines == old(buff.lines) + Emitted(params["Begin Experiment"].val)
    {
      Write(InitCode, buff);
    }

    method WriteInitCodeJS(buff: Buffer)
      requires Valid()
      modifies buff
      ensures buff.lines == old(buff.lines) + Emitted(params["Begin JS Experiment"].val)
    {
      Write(InitCodeJS, buff);
    }

    method WriteRoutineStartCode(buff: Buffer)
      requires Valid()
      modifies buff
      ensures buff.lines == old(buff.lines) + Emitted(params["Begin Routine"].val)
    {
      Write(RoutineStartCode, buff);
    }

    method WriteRoutineStartCodeJS(buff: Buffer)
      requires Valid()
      modifies buff
      ensures buff.lines == old(buff.lines) + Emitted(params["Begin JS Routine"].val)
    {
      Write(RoutineStartCodeJS, buff);
    }

    method WriteFrameCode(buff: Buffer)
      requires Valid()
      modifies buff
      ensures buff.lines == old(buff.lines) + Emitted(params["Each Frame"].val)
    {
      Write(FrameCode, buff);
    }

    method WriteFrameCodeJS(buff: Buffer)
      requires Valid()
      modifies buff
      ensures buff.lines == old(buff.lines) + Emitted(params["Each JS Frame"].val)
    {
      Write(FrameCodeJS, buff);
    }

    method WriteRoutineEndCode(buff: Buffer)
      requires Valid()
      modifies buff
      ensures buff.lines == old(buff.lines) + Emitted(params["End Routine"].val)
    {
      Write(RoutineEndCode, buff);
    }

    method WriteRoutineEndCodeJS(buff: Buffer)
      requires Valid()
      modifies buff
      ensures buff.lines == old(buff.lines) + Emitted(params["End JS Routine"].val)
    {
      Write(RoutineEndCodeJS, buff);
    }

    method WriteExperimentEndCode(buff: Buffer)
      requires Valid()
      modifies buff
      ensures buff.lines == old(buff.lines) + Emitted(params["End Experiment"].val)
    {
      Write(ExperimentEndCode, buff);
    }

    method WriteExperimentEndCodeJS(buff: Buffer)
      requires Valid()
      modifies buff
      ensures buff.lines == old(buff.lines) + Emitted(params["End JS Experiment"].val)
    {
      Write(ExperimentEndCodeJS, buff);
    }
  }
}
