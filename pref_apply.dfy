/** `PreferencesDialog.applyPrefs`: the values of the preference grid are
    written back into the configuration, section by section and
    preference by preference, with the special cases for fonts, themes,
    audio devices, the locale, key bindings, lists and options. */
module PrefApply {
  import opened Outcomes
  import opened PrefGrid
  import opened PrefRules
  import PyStrings

  /** One section of the specification: its name and its preferences,
      each with its specification string, in order. */
  type SpecSection = (string, seq<(string, string)>)

  /** The configuration being written and the application's locale
      preference. */
  datatype Prefs = Prefs(cfg: map<string, map<string, PyVal>>, locale: string)

  /** The lists the dialog indexes with a dropdown's position. */
  datatype Choices = Choices(fonts: seq<string>, themes: seq<string>, audioDevices: seq<string>,
                             locales: seq<string>, darwin: bool)

  /** An exception that leaves `applyPrefs`. */
  datatype ApplyError =
    | GridFailed(grid: GridError)     // `getPrefVal` on a section that is a list
    | BadIndex(index: IndexError)     // `IndexError` or `TypeError` of `xs[thisPref]`
    | NoSection(section: string)      // `KeyError` of `prefsCfg[sectionName]`
    | NotAString                      // `AttributeError` of `replace` on a key binding

  /** Why the loop stopped before the end. */
  datatype Halt = InvalidList(section: string, pref: string) | Raised(error: ApplyError)

  /** Where the loop is: still going with the preferences so far, or
      stopped with the preferences as they were left. */
  datatype Run = Next(prefs: Prefs) | Stop(prefs: Prefs, why: Halt)

  /** What a call of `applyPrefs` ends in. */
  datatype Outcome = NotModified | Applied | Halted(why: Halt)

  /** `prefsCfg[section][pref] = v`, which needs the section to exist. */
  function Store(cfg: map<string, map<string, PyVal>>, section: string, pref: string, v: PyVal)
    : (r: Result<map<string, map<string, PyVal>>, ApplyError>)
    ensures r.Failure? <==> section !in cfg
    ensures r.Failure? ==> r.error == NoSection(section)
    ensures r.Success? ==> r.value.Keys == cfg.Keys && pref in r.value[section] && r.value[section][pref] == v
    ensures r.Success? ==> r.value[section].Keys == cfg[section].Keys + {pref}
    ensures r.Success? ==> forall s, p :: s in cfg && p in cfg[s] && (s, p) != (section, pref) ==>
                             p in r.value[s] && r.value[s][p] == cfg[s][p]
  {
    if section in cfg then Success(cfg[section := cfg[section][pref := v]])
    else Failure(NoSection(section))
  }

  /** Store `xs[index]`, or stop with the error of the indexing. */
  function StoreChosen(prefs: Prefs, section: string, pref: string, xs: seq<string>, index: PyVal): Run
  {
    match PyIndex(xs, index)
    case Failure(e) => Stop(prefs, Raised(BadIndex(e)))
    case Success(x) =>
      match Store(prefs.cfg, section, pref, PStr(x))
      case Failure(e) => Stop(prefs, Raised(e))
      case Success(cfg) => Next(prefs.(cfg := cfg))
  }

  /** `thisPref.strip()` for a value that has a `strip`. */
  function Stripped(v: PyVal): PyVal
  {
    if v.PStr? then PStr(PyStrings.Strip(v.s)) else v
  }

  /** What the loop body does with one preference whose grid value is
      `got`; `eval` is Python's `eval` on strings, which may raise. */
  function PrefStep(choices: Choices, eval: string -> Option<PyVal>, prefs: Prefs,
                    section: string, pref: string, spec: string, got: Result<PyVal, GridError>): Run
  {
    if pref == "version" then Next(prefs)
    else match got
      case Failure(e) => Stop(prefs, Raised(GridFailed(e)))
      case Success(v) =>
        if pref == "codeFont" || pref == "commentFont" || pref == "outputFont" then
          StoreChosen(prefs, section, pref, choices.fonts, v)
        else if pref == "theme" then
          StoreChosen(prefs, section, pref, choices.themes, v)
        else if pref == "audioDevice" then
          StoreChosen(prefs, section, pref, choices.audioDevices, v)
        else if pref == "locale" then
          match PyIndex(choices.locales, v)
          case Failure(e) => Stop(prefs, Raised(BadIndex(e)))
          case Success(l) =>
            // the application's locale is set before the configuration
            StoreChosen(prefs.(locale := l), section, pref, choices.locales, v)
        else
          var clean := Stripped(v);
          if section == "keyBindings" && !clean.PStr? then Stop(prefs, Raised(NotAString))
          else
            var value := if section == "keyBindings" then PStr(SavedBinding(clean.s, choices.darwin)) else clean;
            match Store(prefs.cfg, section, pref, value)
            case Failure(e) => Stop(prefs, Raised(e))
            case Success(cfg) =>
              var stored := prefs.(cfg := cfg);
              if PyStrings.StartsWith(spec, "list") then
                match ListValue(value, eval)
                case None => Stop(stored, InvalidList(section, pref))
                case Some(list) => Next(stored.(cfg := cfg[section := cfg[section][pref := list]]))
              else if PyStrings.StartsWith(spec, "option") then
                StoreChosen(stored, section, pref, SpecOptions(spec), value)
              else Next(stored)
  }

  /** The inner loop over the preferences `entries` of `section`, run from
      `start`; a stop ends it. */
  function ApplySection(choices: Choices, eval: string -> Option<PyVal>, sections: map<string, PrefGrid.Section>,
                        start: Run, section: string, entries: seq<(string, string)>): Run
    decreases |entries|
  {
    if |entries| == 0 then start
    else match ApplySection(choices, eval, sections, start, section, entries[..|entries| - 1])
      case Stop(p, why) => Stop(p, why)
      case Next(p) =>
        var (pref, spec) := entries[|entries| - 1];
        PrefStep(choices, eval, p, section, pref, spec, PrefVal(sections, section, pref))
  }

  /** The outer loop over the sections of the specification. */
  function ApplyAll(choices: Choices, eval: string -> Option<PyVal>, sections: map<string, PrefGrid.Section>,
                    start: Run, spec: seq<SpecSection>): Run
    decreases |spec|
  {
    if |spec| == 0 then start
    else
      var before := ApplyAll(choices, eval, sections, start, spec[..|spec| - 1]);
      ApplySection(choices, eval, sections, before, spec[|spec| - 1].0, spec[|spec| - 1].1)
  }

  /** A stop is final: no later preference changes it. */
  lemma {:induction false} SectionStopPersists(choices: Choices, eval: string -> Option<PyVal>,
                                               sections: map<string, PrefGrid.Section>, p: Prefs, why: Halt,
                                               section: string, entries: seq<(string, string)>)
    ensures ApplySection(choices, eval, sections, Stop(p, why), section, entries) == Stop(p, why)
    decreases |entries|
  {
    if |entries| > 0 {
      SectionStopPersists(choices, eval, sections, p, why, section, entries[..|entries| - 1]);
    }
  }

  lemma {:induction false} AllStopPersists(choices: Choices, eval: string -> Option<PyVal>,
                                           sections: map<string, PrefGrid.Section>, start: Run,
                                           spec: seq<SpecSection>, k: nat)
    requires k <= |spec| && ApplyAll(choices, eval, sections, start, spec[..k]).Stop?
    ensures ApplyAll(choices, eval, sections, start, spec) == ApplyAll(choices, eval, sections, start, spec[..k])
    decreases |spec|
  {
    if k < |spec| {
      var init := spec[..|spec| - 1];
      assert init[..k] == spec[..k];
      AllStopPersists(choices, eval, sections, start, init, k);
      var mid := ApplyAll(choices, eval, sections, start, init);
      SectionStopPersists(choices, eval, sections, mid.prefs, mid.why, spec[|spec| - 1].0, spec[|spec| - 1].1);
    } else {
      assert spec[..k] == spec;
    }
  }

  /** The entries of section `section` of the specification name `pref`. */
  predicate Mentions(spec: seq<SpecSection>, section: string, pref: string)
  {
    exists i, j :: 0 <= i < |spec| && 0 <= j < |spec[i].1| && spec[i].0 == section && spec[i].1[j].0 == pref
  }

  /** The configuration only changes at the preference a step names:
      no section is added, and every other value is kept. */
  predicate Keeps(before: Prefs, after: Prefs, section: string, pref: string)
  {
    && after.cfg.Keys == before.cfg.Keys
    && (forall s :: s in before.cfg ==> before.cfg[s].Keys <= after.cfg[s].Keys)
    && (forall s, p :: s in before.cfg && p in before.cfg[s] && (s, p) != (section, pref) ==>
                        after.cfg[s][p] == before.cfg[s][p])
  }

  lemma StoreChosenKeeps(prefs: Prefs, section: string, pref: string, xs: seq<string>, index: PyVal)
    ensures Keeps(prefs, StoreChosen(prefs, section, pref, xs, index).prefs, section, pref)
  {
  }

  /** One step keeps every value but the one it names, and `version`
      keeps even that. */
  lemma PrefStepKeeps(choices: Choices, eval: string -> Option<PyVal>, prefs: Prefs,
                      section: string, pref: string, spec: string, got: Result<PyVal, GridError>)
    ensures var r := PrefStep(choices, eval, prefs, section, pref, spec, got);
            Keeps(prefs, r.prefs, section, pref)
            && (pref == "version" ==> r == Next(prefs))
  {
    if pref != "version" && got.Success? {
      var v := got.value;
      if pref == "codeFont" || pref == "commentFont" || pref == "outputFont" {
        StoreChosenKeeps(prefs, section, pref, choices.fonts, v);
      } else if pref == "theme" {
        StoreChosenKeeps(prefs, section, pref, choices.themes, v);
      } else if pref == "audioDevice" {
        StoreChosenKeeps(prefs, section, pref, choices.audioDevices, v);
      } else if pref == "locale" {
        if PyIndex(choices.locales, v).Success? {
          var l := PyIndex(choices.locales, v).value;
          StoreChosenKeeps(prefs.(locale := l), section, pref, choices.locales, v);
        }
      } else {
        var clean := Stripped(v);
        if !(section == "keyBindings" && !clean.PStr?) {
          var value := if section == "keyBindings" then PStr(SavedBinding(clean.s, choices.darwin)) else clean;
          if Store(prefs.cfg, section, pref, value).Success? {
            var cfg := Store(prefs.cfg, section, pref, value).value;
            var stored := prefs.(cfg := cfg);
            if !PyStrings.StartsWith(spec, "list") && PyStrings.StartsWith(spec, "option") {
              StoreChosenKeeps(stored, section, pref, SpecOptions(spec), value);
            }
          }
        }
      }
    }
  }

  /** The preferences a section's loop leaves differ from where it
      started only at the preferences it names (other than `version`). */
  lemma {:induction false} ApplySectionKeeps(choices: Choices, eval: string -> Option<PyVal>,
                                             sections: map<string, PrefGrid.Section>, start: Run,
                                             section: string, entries: seq<(string, string)>, s: string, p: string)
    requires s in start.prefs.cfg && p in start.prefs.cfg[s]
    requires s != section || p == "version" || forall j :: 0 <= j < |entries| ==> entries[j].0 != p
    ensures var r := ApplySection(choices, eval, sections, start, section, entries);
            r.prefs.cfg.Keys == start.prefs.cfg.Keys && s in r.prefs.cfg && p in r.prefs.cfg[s]
            && r.prefs.cfg[s][p] == start.prefs.cfg[s][p]
    decreases |entries|
  {
    if |entries| > 0 {
      var init := entries[..|entries| - 1];
      assert forall j :: 0 <= j < |init| ==> init[j] == entries[j];
      ApplySectionKeeps(choices, eval, sections, start, section, init, s, p);
      var mid := ApplySection(choices, eval, sections, start, section, init);
      if mid.Next? {
        var (pref, spec) := entries[|entries| - 1];
        PrefStepKeeps(choices, eval, mid.prefs, section, pref, spec, PrefVal(sections, section, pref));
      }
    }
  }

  /** `applyPrefs` never adds a section, and a preference that the
      specification does not name, or `version`, keeps its value. */
  lemma {:induction false} ApplyAllKeeps(choices: Choices, eval: string -> Option<PyVal>,
                                         sections: map<string, PrefGrid.Section>, start: Run,
                                         spec: seq<SpecSection>, s: string, p: string)
    requires s in start.prefs.cfg && p in start.prefs.cfg[s]
    requires p == "version" || !Mentions(spec, s, p)
    ensures var r := ApplyAll(choices, eval, sections, start, spec);
            r.prefs.cfg.Keys == start.prefs.cfg.Keys && s in r.prefs.cfg && p in r.prefs.cfg[s]
            && r.prefs.cfg[s][p] == start.prefs.cfg[s][p]
    decreases |spec|
  {
    if |spec| > 0 {
      var init := spec[..|spec| - 1];
      var last := spec[|spec| - 1];
      ApplyAllKeeps(choices, eval, sections, start, init, s, p);
      var mid := ApplyAll(choices, eval, sections, start, init);
      ApplySectionKeeps(choices, eval, sections, mid, last.0, last.1, s, p);
    }
  }

  /** A step that goes on leaves the value the source promises at the
      preference it names: a list for a list specification, one of the
      options for an option specification, the saved form of a key
      binding, and the same locale in both places. */
  lemma PrefStepStores(choices: Choices, eval: string -> Option<PyVal>, prefs: Prefs,
                       section: string, pref: string, spec: string, v: PyVal)
    requires pref != "version"
    requires PrefStep(choices, eval, prefs, section, pref, spec, Success(v)).Next?
    ensures var after := PrefStep(choices, eval, prefs, section, pref, spec, Success(v)).prefs;
            && section in after.cfg && pref in after.cfg[section]
            && (pref == "locale" ==> after.cfg[section][pref] == PStr(after.locale) && PStr(after.locale) == PStr(PyIndex(choices.locales, v).value))
            && (pref != "locale" ==> after.locale == prefs.locale)
            && (!IsSpecial(pref) && PyStrings.StartsWith(spec, "list") ==> after.cfg[section][pref].PList?)
            && (!IsSpecial(pref) && !PyStrings.StartsWith(spec, "list") && PyStrings.StartsWith(spec, "option") ==>
                  exists k :: 0 <= k < |SpecOptions(spec)| && after.cfg[section][pref] == PStr(SpecOptions(spec)[k]))
            && (!IsSpecial(pref) && section == "keyBindings" && !PyStrings.StartsWith(spec, "list") && !PyStrings.StartsWith(spec, "option") ==>
                  after.cfg[section][pref] == PStr(SavedBinding(PyStrings.Strip(v.s), choices.darwin)))
  {
    if !IsSpecial(pref) && !PyStrings.StartsWith(spec, "list") && PyStrings.StartsWith(spec, "option") {
      var clean := Stripped(v);
      var value := if section == "keyBindings" then PStr(SavedBinding(clean.s, choices.darwin)) else clean;
      var xs := SpecOptions(spec);
      match PyIndex(xs, value)
      case Success(x) =>
        if value.PInt? && value.i < 0 {
          assert x == xs[|xs| + value.i];
        } else if value.PInt? {
          assert x == xs[value.i];
        } else {
          var i := if value.b then 1 else 0;
          assert x == xs[i];
        }
      case Failure(_) =>
    }
  }

  /** The preferences with a case of their own in `applyPrefs`. */
  predicate IsSpecial(pref: string)
  {
    pref in {"codeFont", "commentFont", "outputFont", "theme", "audioDevice", "locale"}
  }

  /** A list preference whose text `eval` refuses stops the loop with the
      raw text already written to the configuration. */
  lemma InvalidListLeavesText(choices: Choices, eval: string -> Option<PyVal>, prefs: Prefs,
                              section: string, pref: string, spec: string, text: string)
    requires pref != "version" && !IsSpecial(pref) && section != "keyBindings" && section in prefs.cfg
    requires PyStrings.StartsWith(spec, "list")
    requires PyStrings.Strip(text) != "" && eval(PyStrings.Strip(text)).None?
    ensures PrefStep(choices, eval, prefs, section, pref, spec, Success(PStr(text)))
            == Stop(prefs.(cfg := prefs.cfg[section := prefs.cfg[section][pref := PStr(PyStrings.Strip(text))]]),
                    InvalidList(section, pref))
  {
  }

  /** The options dialog: the configuration it writes, the application's
      locale, the grid it reads and the lists its dropdowns index. */
  class PreferencesDialog {
    var prefsCfg: map<string, map<string, PyVal>>
    var appLocale: string
    const proPrefs: PrefPropGrid
    const prefsSpec: seq<SpecSection>
    const choices: Choices

    constructor (cfg: map<string, map<string, PyVal>>, locale: string, grid: PrefPropGrid,
                 spec: seq<SpecSection>, lists: Choices)
      ensures prefsCfg == cfg && appLocale == locale && proPrefs == grid && prefsSpec == spec && choices == lists
    {
      prefsCfg := cfg;
      appLocale := locale;
      proPrefs := grid;
      prefsSpec := spec;
      choices := lists;
    }

    /** The two loops of `applyPrefs`, stopping at the first warning or
        exception. */
    method ApplyLoop(eval: string -> Option<PyVal>) returns (r: Run)
      ensures r == ApplyAll(choices, eval, proPrefs.sections, Next(Prefs(prefsCfg, appLocale)), prefsSpec)
    {
      var start := Next(Prefs(prefsCfg, appLocale));
      var prefs := Prefs(prefsCfg, appLocale);
      for i := 0 to |prefsSpec|
        invariant ApplyAll(choices, eval, proPrefs.sections, start, prefsSpec[..i]) == Next(prefs)
      {
        var (section, entries) := prefsSpec[i];
        assert prefsSpec[..i + 1][..i] == prefsSpec[..i];
        for j := 0 to |entries|
          invariant ApplySection(choices, eval, proPrefs.sections, Next(ApplyAll(choices, eval, proPrefs.sections, start, prefsSpec[..i]).prefs), section, entries[..j]) == Next(prefs)
        {
          var (pref, spec) := entries[j];
          assert entries[..j + 1][..j] == entries[..j];
          var got := proPrefs.GetPrefVal(section, pref);
          var step := PrefStep(choices, eval, prefs, section, pref, spec, got);
          if step.Stop? {
            SectionStopPersists(choices, eval, proPrefs.sections, step.prefs, step.why, section, entries[j + 1..]);
            SectionSplit(choices, eval, proPrefs.sections, Next(ApplyAll(choices, eval, proPrefs.sections, start, prefsSpec[..i]).prefs),
                         section, entries, j + 1);
            AllStopPersists(choices, eval, proPrefs.sections, start, prefsSpec, i + 1);
            return step;
          }
          prefs := step.prefs;
        }
        assert entries[..|entries|] == entries;
      }
      assert prefsSpec[..|prefsSpec|] == prefsSpec;
      r := Next(prefs);
    }

    /** `applyPrefs`: nothing happens unless the grid was modified;
        otherwise the configuration and the locale are those the loops
        leave, also when a warning or an exception ends them. */
    method ApplyPrefs(modified: bool, eval: string -> Option<PyVal>) returns (outcome: Outcome)
      modifies this
      ensures !modified ==> outcome == NotModified && unchanged(this)
      ensures modified ==>
                var run := ApplyAll(choices, eval, proPrefs.sections, Next(Prefs(old(prefsCfg), old(appLocale))), prefsSpec);
                && prefsCfg == run.prefs.cfg && appLocale == run.prefs.locale
                && outcome == (if run.Next? then Applied else Halted(run.why))
    {
      if !modified {
        return NotModified;
      }
      var run := ApplyLoop(eval);
      prefsCfg := run.prefs.cfg;
      appLocale := run.prefs.locale;
      outcome := if run.Next? then Applied else Halted(run.why);
    }
  }

  /** Running a section's loop over `entries` is running it over the
      first `k` entries and then over the rest. */
  lemma {:induction false} SectionSplit(choices: Choices, eval: string -> Option<PyVal>,
                                        sections: map<string, PrefGrid.Section>, start: Run,
                                        section: string, entries: seq<(string, string)>, k: nat)
    requires k <= |entries|
    ensures ApplySection(choices, eval, sections, start, section, entries)
            == ApplySection(choices, eval, sections, ApplySection(choices, eval, sections, start, section, entries[..k]),
                            section, entries[k..])
    decreases |entries|
  {
    if k == |entries| {
      assert entries[..k] == entries;
    } else {
      var init, last := entries[..|entries| - 1], entries[|entries| - 1];
      assert init[..k] == entries[..k];
      assert init + [last] == entries;
      SectionSplit(choices, eval, sections, start, section, init, k);
      assert entries[k..] == init[k..] + [last];
      assert (init[k..] + [last])[..|init[k..]|] == init[k..];
    }
  }
}
