/** The string rules of PsychoPy's preferences dialog: how an `option(...)`
    specification is cut into its options and its default, how a key
    binding is shown on macOS and normalised when it is saved, and how the
    value of a list preference is turned back into a list. */
module PrefRules {
  import opened Outcomes
  import opened PrefGrid
  import PyStrings

  // ---------------------------------------------------------------------
  // Option specifications

  /** The specification with `option(` and every `'` removed and `, `
      turned into `,`. */
  function CleanedSpec(spec: string): (r: string)
    ensures '\'' !in r
  {
    var unquoted := PyStrings.Replace(PyStrings.Replace(spec, "option(", ""), "'", "");
    PyStrings.ReplaceCharRemovesIt(PyStrings.Replace(spec, "option(", ""), '\'', "");
    PyStrings.ReplaceKeeps(unquoted, ", ", ",", '\'');
    PyStrings.Replace(unquoted, ", ", ",")
  }

  /** The comma-separated fields of the specification; the last one is
      the `default=...` field. */
  function SpecFields(spec: string): (r: seq<string>)
    ensures |r| > 0
  {
    PyStrings.Split(CleanedSpec(spec), ',')
  }

  /** `vals[:-1]`: every field but the last. */
  function SpecOptions(spec: string): (r: seq<string>)
  {
    var fields := SpecFields(spec);
    fields[..|fields| - 1]
  }

  /** `vals[-1]`. */
  function SpecDefaultField(spec: string): string
  {
    var fields := SpecFields(spec);
    fields[|fields| - 1]
  }

  /** Cutting a text without quotes at its commas: one field more than
      there are commas, no field holds a comma or a quote, and joining
      them back gives the text. */
  lemma {:induction false} FieldsOf(text: string)
    requires '\'' !in text
    ensures var fields := PyStrings.Split(text, ',');
            && |fields[..|fields| - 1]| == PyStrings.CountChar(text, ',')
            && (forall k :: 0 <= k < |fields| ==> ',' !in fields[k] && '\'' !in fields[k])
            && PyStrings.Join(fields[..|fields| - 1] + [fields[|fields| - 1]], ',') == text
  {
    var fields := PyStrings.Split(text, ',');
    PyStrings.SplitCount(text, ',');
    PyStrings.JoinSplit(text, ',');
    PyStrings.SplitKeeps(text, ',', '\'');
    assert fields[..|fields| - 1] + [fields[|fields| - 1]] == fields;
  }

  /** The options and the default field are the cleaned specification cut
      at its commas: there is one option per comma, none holds a comma or
      a quote, and joining them back with the default field gives the
      cleaned specification. */
  lemma SpecFieldsEffect(spec: string)
    ensures var options := SpecOptions(spec);
            && |options| == PyStrings.CountChar(CleanedSpec(spec), ',')
            && (forall k :: 0 <= k < |options| ==> ',' !in options[k] && '\'' !in options[k])
            && ',' !in SpecDefaultField(spec) && '\'' !in SpecDefaultField(spec)
            && PyStrings.Join(options + [SpecDefaultField(spec)], ',') == CleanedSpec(spec)
  {
    var fields := SpecFields(spec);
    FieldsOf(CleanedSpec(spec));
    forall k | 0 <= k < |SpecOptions(spec)| ensures ',' !in SpecOptions(spec)[k] && '\'' !in SpecOptions(spec)[k] {
      assert SpecOptions(spec)[k] == fields[k];
    }
  }

  /** `vals[-1].strip('()').split('=')[1]`, or `None` for the `IndexError`
      of a default field without `=`. */
  function SpecDefault(spec: string): (r: Option<string>)
  {
    var parts := PyStrings.Split(PyStrings.StripChars(SpecDefaultField(spec), {'(', ')'}), '=');
    if |parts| > 1 then Some(parts[1]) else None
  }

  /** A default is found exactly when the stripped default field holds an
      `=`, and it is the text between the first and the second `=`. */
  lemma SpecDefaultEffect(spec: string)
    ensures var stripped := PyStrings.StripChars(SpecDefaultField(spec), {'(', ')'});
            && (SpecDefault(spec).Some? <==> '=' in stripped)
            && (SpecDefault(spec).Some? ==> '=' !in SpecDefault(spec).value)
  {
    var stripped := PyStrings.StripChars(SpecDefaultField(spec), {'(', ')'});
    PyStrings.SplitCount(stripped, '=');
    PyStrings.CountCharPositive(stripped, '=');
  }

  /** `list.index`: the first position of `x`. */
  function FirstIndex(xs: seq<string>, x: string): (r: Option<nat>)
    ensures r.None? <==> x !in xs
    ensures r.Some? ==> r.value < |xs| && xs[r.value] == x && forall k :: 0 <= k < r.value ==> xs[k] != x
    decreases |xs|
  {
    if |xs| == 0 then None
    else if xs[0] == x then Some(0)
    else match FirstIndex(xs[1..], x)
      case None => None
      case Some(i) => Some(i + 1)
  }

  /** The value an enum property starts at: an option's position, or the
      default field's text itself. */
  datatype EnumDefault = AtIndex(i: int) | Named(s: string)

  /** The default of the dropdown `populatePrefs` builds for an option
      preference: the position of the current value among the options,
      else the specification's default text, else 0. */
  function OptionDefault(spec: string, pref: PyVal): (r: EnumDefault)
  {
    var options := SpecOptions(spec);
    if pref.PStr? && FirstIndex(options, pref.s).Some? then AtIndex(FirstIndex(options, pref.s).value)
    else match SpecDefault(spec)
      case Some(d) => Named(d)
      case None => AtIndex(0)
  }

  /** A current value that is one of the options selects its first
      position; any other value falls back to the default text, or to 0
      when the specification has none. */
  lemma OptionDefaultEffect(spec: string, pref: PyVal)
    ensures var options := SpecOptions(spec);
            var r := OptionDefault(spec, pref);
            && (pref.PStr? && pref.s in options ==>
                  r.AtIndex? && 0 <= r.i < |options| && options[r.i] == pref.s
                  && forall k :: 0 <= k < r.i ==> options[k] != pref.s)
            && (!(pref.PStr? && pref.s in options) ==>
                  r == if SpecDefault(spec).Some? then Named(SpecDefault(spec).value) else AtIndex(0))
  {
  }

  /** What Python's `int()` raises on a value it cannot convert. */
  datatype ConvError = ValueErr | TypeErr

  /** The default of the audio latency dropdown: `int()` of the current
      value, or else of the specification's default text, or else 0.
      Only a `ValueError` from the first conversion is caught; any error
      of the second gives 0. `int()` itself is a parameter. */
  function LatencyDefault(spec: string, pref: PyVal, toInt: PyVal -> Result<int, ConvError>): (r: Result<int, ConvError>)
    ensures r.Failure? <==> toInt(pref) == Failure(TypeErr)
    ensures toInt(pref).Success? ==> r == toInt(pref)
    ensures toInt(pref) == Failure(ValueErr) && SpecDefault(spec).None? ==> r == Success(0)
    ensures toInt(pref) == Failure(ValueErr) && SpecDefault(spec).Some? ==>
              r == Success(if toInt(PStr(SpecDefault(spec).value)).Success? then toInt(PStr(SpecDefault(spec).value)).value else 0)
  {
    match toInt(pref)
    case Success(i) => Success(i)
    case Failure(TypeErr) => Failure(TypeErr)
    case Failure(ValueErr) =>
      match SpecDefault(spec)
      case None => Success(0)
      case Some(d) =>
        match toInt(PStr(d))
        case Success(i) => Success(i)
        case Failure(_) => Success(0)
  }

  // ---------------------------------------------------------------------
  // Key bindings

  /** How `populatePrefs` shows a string key binding on macOS: every
      `Ctrl+` becomes `Cmd+`. */
  function DarwinDisplay(binding: string): string
  {
    PyStrings.Replace(binding, "Ctrl+", "Cmd+")
  }

  /** The binding starts with `Cmd+` in any case, as `^Cmd\+` with
      `re.I` matches. */
  predicate StartsWithCmd(s: string)
  {
    |s| >= 4 && PyStrings.LowerIs(s[..4], "cmd+")
  }

  /** `re_cmd2ctrl.sub('Ctrl+', s)`: only a leading `Cmd+` becomes `Ctrl+`. */
  function DarwinSave(s: string): (r: string)
    ensures StartsWithCmd(s) ==> r == "Ctrl+" + s[4..]
    ensures !StartsWithCmd(s) ==> r == s
  {
    if StartsWithCmd(s) then "Ctrl+" + s[4..] else s
  }

  function CapitalizeAll(parts: seq<string>): (r: seq<string>)
    ensures |r| == |parts| && forall k :: 0 <= k < |parts| ==> r[k] == PyStrings.Capitalize(parts[k])
  {
    seq(|parts|, k requires 0 <= k < |parts| => PyStrings.Capitalize(parts[k]))
  }

  /** `part.capitalize() for part in s.replace(' ', '').split('+')`. */
  function BindingParts(s: string): seq<string>
  {
    CapitalizeAll(PyStrings.Split(PyStrings.Replace(s, " ", ""), '+'))
  }

  /** `'+'.join(...)` of those parts. */
  function NormalisedBinding(s: string): string
  {
    PyStrings.Join(BindingParts(s), '+')
  }

  /** The saved form of a binding: normalised, and on macOS with a leading
      `Cmd+` turned back into `Ctrl+`. */
  function SavedBinding(s: string, darwin: bool): string
  {
    if darwin then DarwinSave(NormalisedBinding(s)) else NormalisedBinding(s)
  }

  /** Capitalising never brings in a character that is not a letter. */
  lemma CapitalizeKeeps(s: string, x: char)
    requires x !in s && !('a' <= x <= 'z') && !('A' <= x <= 'Z')
    ensures x !in PyStrings.Capitalize(s)
  {
    var r := PyStrings.Capitalize(s);
    forall k | 0 <= k < |r| ensures r[k] != x {
      assert s[k] in s;
    }
  }

  /** The parts of a binding with its spaces removed: none holds a space
      or a `+`. */
  lemma BindingPartsClean(s: string)
    ensures |BindingParts(s)| > 0
    ensures forall k :: 0 <= k < |BindingParts(s)| ==> ' ' !in BindingParts(s)[k] && '+' !in BindingParts(s)[k]
  {
    var spaceless := PyStrings.Replace(s, " ", "");
    PyStrings.ReplaceCharRemovesIt(s, ' ', "");
    var raw := PyStrings.Split(spaceless, '+');
    PyStrings.SplitKeeps(spaceless, '+', ' ');
    forall k | 0 <= k < |raw| ensures ' ' !in PyStrings.Capitalize(raw[k]) && '+' !in PyStrings.Capitalize(raw[k]) {
      CapitalizeKeeps(raw[k], ' ');
      CapitalizeKeeps(raw[k], '+');
    }
  }

  /** A normalised binding has no spaces, and its `+`-separated parts are
      the capitalised parts of the spaceless input. */
  lemma NormalisedParts(s: string)
    ensures ' ' !in NormalisedBinding(s)
    ensures PyStrings.Split(NormalisedBinding(s), '+') == BindingParts(s)
  {
    var parts := BindingParts(s);
    BindingPartsClean(s);
    PyStrings.JoinKeeps(parts, '+', ' ');
    PyStrings.SplitJoin(parts, '+');
  }

  /** Normalising a normalised binding changes nothing. */
  lemma NormalisedIdempotent(s: string)
    ensures NormalisedBinding(NormalisedBinding(s)) == NormalisedBinding(s)
  {
    var n := NormalisedBinding(s);
    var parts := BindingParts(s);
    NormalisedParts(s);
    assert !PyStrings.Occurs(n, " ") by {
      forall i: nat | i <= |n| ensures !PyStrings.OccursAt(n, " ", i) {
        if i + 1 <= |n| {
          assert n[i..i + 1][0] == n[i];
        }
      }
    }
    PyStrings.ReplaceAbsent(n, " ", "");
    assert CapitalizeAll(parts) == parts by {
      forall k | 0 <= k < |parts| ensures PyStrings.Capitalize(parts[k]) == parts[k] {
        PyStrings.CapitalizeIdempotent(PyStrings.Split(PyStrings.Replace(s, " ", ""), '+')[k]);
      }
    }
  }

  lemma CmdPrefix(rest: string)
    ensures StartsWithCmd("Cmd+" + rest) && ("Cmd+" + rest)[4..] == rest
  {
    var s := "Cmd+" + rest;
    assert s[..4] == "Cmd+";
    PyStrings.LowerIsMeaning(s[..4], "cmd+");
    assert PyStrings.Lower("Cmd+") == "cmd+";
  }

  /** The macOS round trip, shown with `Cmd+` and saved back, gives the
      binding back exactly when the binding has no `Ctrl+` and no leading
      `Cmd+`, or has a leading `Ctrl+` as its only one. */
  lemma DarwinRoundTrip(b: string)
    ensures DarwinSave(DarwinDisplay(b)) == b <==>
              (!PyStrings.Occurs(b, "Ctrl+") && !StartsWithCmd(b))
              || (|b| >= 5 && b[..5] == "Ctrl+" && !PyStrings.Occurs(b[5..], "Ctrl+"))
  {
    var d := DarwinDisplay(b);
    PyStrings.ReplaceLength(b, "Ctrl+", "Cmd+");
    PyStrings.ReplaceCountZero(b, "Ctrl+");
    if |b| >= 5 && b[..5] == "Ctrl+" {
      var rest := b[5..];
      assert b == "Ctrl+" + rest;
      PyStrings.ReplaceAtStart("Ctrl+", rest, "Cmd+");
      PyStrings.ReplaceCountZero(rest, "Ctrl+");
      PyStrings.ReplaceLength(rest, "Ctrl+", "Cmd+");
      if !PyStrings.Occurs(rest, "Ctrl+") {
        PyStrings.ReplaceAbsent(rest, "Ctrl+", "Cmd+");
      }
      CmdPrefix(PyStrings.Replace(rest, "Ctrl+", "Cmd+"));
      assert PyStrings.OccursAt(b, "Ctrl+", 0);
    } else if !PyStrings.Occurs(b, "Ctrl+") {
      PyStrings.ReplaceAbsent(b, "Ctrl+", "Cmd+");
    }
  }

  // ---------------------------------------------------------------------
  // List preferences

  /** `[v]` unless `v` is already a list. */
  function Wrapped(v: PyVal): (r: PyVal)
    ensures r.PList?
    ensures v.PList? ==> r == v
    ensures !v.PList? ==> r == PList([v])
  {
    if v.PList? then v else PList([v])
  }

  /** The value stored for a list preference: `''` and a list as they
      are, any other string through `eval` (a parameter that may fail),
      wrapped into a one-element list unless it is a list. `None` is the
      warning dialog of a failed `eval`, also raised by `eval` of a value
      that is not a string. */
  function ListValue(v: PyVal, eval: string -> Option<PyVal>): (r: Option<PyVal>)
    ensures r.Some? ==> r.value.PList?
    ensures v == PStr("") ==> r == Some(PList([PStr("")]))
    ensures v.PList? ==> r == Some(v)
    ensures v.PStr? && v.s != "" ==>
              r == (if eval(v.s).Some? then Some(Wrapped(eval(v.s).value)) else None)
    ensures !v.PStr? && !v.PList? ==> r.None?
  {
    if v == PStr("") || v.PList? then Some(Wrapped(v))
    else if v.PStr? then
      match eval(v.s)
      case None => None
      case Some(x) => Some(Wrapped(x))
    else None
  }

  /** Storing the list value again changes nothing: a list is kept. */
  lemma ListValueIdempotent(v: PyVal, eval: string -> Option<PyVal>)
    requires ListValue(v, eval).Some?
    ensures ListValue(ListValue(v, eval).value, eval) == ListValue(v, eval)
  {
  }

  // ---------------------------------------------------------------------
  // Indexing

  /** What indexing a Python list raises. */
  datatype IndexError = OutOfRange | NotAnIndex

  /** `xs[v]`: an int (or a bool, which is one) counts from the front, or
      from the back when negative; anything else is a `TypeError`. */
  function PyIndex<T>(xs: seq<T>, v: PyVal): (r: Result<T, IndexError>)
    ensures v.PInt? && 0 <= v.i < |xs| ==> r == Success(xs[v.i])
    ensures v.PInt? && -|xs| <= v.i < 0 ==> r == Success(xs[|xs| + v.i])
    ensures v.PInt? && !(-|xs| <= v.i < |xs|) ==> r == Failure(OutOfRange)
    ensures !v.PInt? && !v.PBool? ==> r == Failure(NotAnIndex)
  {
    match v
    case PInt(i) =>
      if 0 <= i < |xs| then Success(xs[i])
      else if -|xs| <= i < 0 then Success(xs[|xs| + i])
      else Failure(OutOfRange)
    case PBool(b) =>
      var i := if b then 1 else 0;
      if i < |xs| then Success(xs[i]) else Failure(OutOfRange)
    case _ => Failure(NotAnIndex)
  }
}
