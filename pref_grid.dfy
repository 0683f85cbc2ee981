/** The registry behind the property grid of PsychoPy's preferences dialog:
    the `PrefPropGrid` keeps one dictionary of properties per section, the
    pages in the order they were added, a map from page name to page
    index, the help text of every property, and the next page index. The
    wx property objects are reduced to their kind, caption, name and value. */
module PrefGrid {
  import opened Outcomes

  /** The Python values a preference takes: what a property holds, what
      the configuration stores, and what `eval` may give back. */
  datatype PyVal =
    | PNone
    | PBool(b: bool)
    | PInt(i: int)
    | PStr(s: string)
    | PList(elems: seq<PyVal>)
    | PObject                     // any other value, such as a tuple or a dict

  /** The wx property classes the grid creates. */
  datatype PropKind =
    | StringProperty
    | ArrayStringProperty
    | BoolProperty
    | FileProperty
    | DirProperty
    | IntProperty
    | EnumProperty(labels: seq<string>, values: seq<int>)

  datatype Property = Property(kind: PropKind, caption: string, name: string, value: PyVal)

  /** A section: the dictionary of its properties by name, or the empty
      list `addFileItem` stores for a section it creates. */
  datatype Section = Props(props: map<string, Property>) | EmptyList

  /** A page: the wx page, known by the name it was added under, and the
      list of its sections. */
  datatype Page = Page(name: string, sections: seq<string>)

  datatype GridError =
    | PageExists              // ValueError("Page already exists.")
    | NotADict(section: string) // a list section: AttributeError on `.update`, TypeError on `[name]`

  /** A dictionary key as Python compares it: a page index never equals
      a page name. */
  datatype Key = IntKey(i: int) | StrKey(s: string)

  function PageKeys(pages: map<int, Page>): (keys: set<Key>)
    ensures forall k :: k in keys <==> k.IntKey? && k.i in pages
  {
    set i | i in pages :: IntKey(i)
  }

  /** `name in self.pages.keys()`: the pages are keyed by index, so no
      name is ever found. */
  lemma PageNameNeverAKey(name: string, pages: map<int, Page>)
    ensures StrKey(name) !in PageKeys(pages)
  {
  }

  /** The sections after `addPage` has created an empty dictionary for
      each listed section not yet present, in order. */
  function WithSections(sections: map<string, Section>, names: seq<string>): map<string, Section>
    decreases |names|
  {
    if |names| == 0 then sections
    else
      var prev := WithSections(sections, names[..|names| - 1]);
      var s := names[|names| - 1];
      if s in prev then prev else prev[s := Props(map[])]
  }

  /** Every listed section exists afterwards; an existing one keeps its
      contents, a new one is empty, and no other section appears. */
  lemma {:induction false} WithSectionsEffect(sections: map<string, Section>, names: seq<string>)
    ensures var r := WithSections(sections, names);
            && (forall s :: s in r <==> s in sections || s in names)
            && (forall s :: s in sections ==> r[s] == sections[s])
            && (forall s :: s in r && s !in sections ==> r[s] == Props(map[]))
    decreases |names|
  {
    if |names| > 0 {
      var init := names[..|names| - 1];
      WithSectionsEffect(sections, init);
      assert names == init + [names[|names| - 1]];
    }
  }

  /** The sections once `add*Item` has made sure `section` exists, with
      `initial` as the value of a new section. */
  function Opened(sections: map<string, Section>, section: string, initial: Section): (r: map<string, Section>)
    ensures section in r && r.Keys == sections.Keys + {section}
    ensures section in sections ==> r == sections
    ensures section !in sections ==> r[section] == initial
    ensures forall s :: s in sections ==> r[s] == sections[s]
  {
    if section in sections then sections else sections[section := initial]
  }

  /** `self.sections[section].update({name: prop})`: a dictionary section
      gains or replaces the property; a list section has no `update`. */
  function Updated(sections: map<string, Section>, section: string, name: string, prop: Property)
    : (r: Result<map<string, Section>, GridError>)
    requires section in sections
  {
    match sections[section]
    case EmptyList => Failure(NotADict(section))
    case Props(props) => Success(sections[section := Props(props[name := prop])])
  }

  /** An item added to a dictionary section is found under its name;
      every other property of the section and every other section stay
      as they were. Only a list section refuses it. */
  lemma UpdatedEffect(sections: map<string, Section>, section: string, name: string, prop: Property)
    requires section in sections
    ensures var r := Updated(sections, section, name, prop);
            && (r.Failure? <==> sections[section].EmptyList?)
            && (r.Failure? ==> r.error == NotADict(section))
            && (r.Success? ==>
                  && r.value.Keys == sections.Keys
                  && r.value[section].Props? && name in r.value[section].props
                  && r.value[section].props[name] == prop
                  && r.value[section].props.Keys == sections[section].props.Keys + {name}
                  && (forall n :: n in sections[section].props && n != name ==>
                        r.value[section].props[n] == sections[section].props[n])
                  && (forall s :: s in sections && s != section ==> r.value[s] == sections[s]))
  {
  }

  /** `addFileItem` on a section that does not exist yet always fails:
      the new section is a list. */
  lemma FileItemOnNewSectionFails(sections: map<string, Section>, section: string, name: string, prop: Property)
    requires section !in sections
    ensures Updated(Opened(sections, section, EmptyList), section, name, prop) == Failure(NotADict(section))
  {
  }

  /** With a dictionary as the new section, as every other `add*Item`
      creates, the item is always stored. */
  lemma FileItemWithDictSection(sections: map<string, Section>, section: string, name: string, prop: Property)
    requires section in sections ==> sections[section].Props?
    ensures var r := Updated(Opened(sections, section, Props(map[])), section, name, prop);
            r.Success? && r.value[section].props[name] == prop
  {
  }

  /** `getPrefVal`: the value of the named property, `None` for a missing
      section or name (the `KeyError` it catches). Indexing a list section
      by a name raises a `TypeError`, which it does not catch. */
  function PrefVal(sections: map<string, Section>, section: string, name: string): (r: Result<PyVal, GridError>)
    ensures r.Failure? <==> section in sections && sections[section].EmptyList?
    ensures r.Failure? ==> r.error == NotADict(section)
    ensures r.Success? && (section !in sections || name !in sections[section].props) ==> r.value == PNone
    ensures section in sections && sections[section].Props? && name in sections[section].props ==>
              r == Success(sections[section].props[name].value)
  {
    if section !in sections then Success(PNone)
    else match sections[section]
      case EmptyList => Failure(NotADict(section))
      case Props(props) => if name in props then Success(props[name].value) else Success(PNone)
  }

  /** `setPrefVal`: `Some` of the new sections when the property exists,
      `None` when the section or name is missing (it then returns False). */
  function WithPrefVal(sections: map<string, Section>, section: string, name: string, value: PyVal)
    : (r: Result<Option<map<string, Section>>, GridError>)
    ensures r.Failure? <==> section in sections && sections[section].EmptyList?
    ensures r.Failure? ==> r.error == NotADict(section)
    ensures r.Success? && r.value.None? <==> section !in sections || (sections[section].Props? && name !in sections[section].props)
  {
    if section !in sections then Success(None)
    else match sections[section]
      case EmptyList => Failure(NotADict(section))
      case Props(props) =>
        if name in props then Success(Some(sections[section := Props(props[name := props[name].(value := value)])]))
        else Success(None)
  }

  /** A value set is the value got back, and nothing else changes: every
      other property keeps its value, and every property keeps its kind,
      caption and name. */
  lemma SetThenGet(sections: map<string, Section>, section: string, name: string, value: PyVal,
                   section': string, name': string)
    requires WithPrefVal(sections, section, name, value).Success?
    requires WithPrefVal(sections, section, name, value).value.Some?
    ensures var after := WithPrefVal(sections, section, name, value).value.value;
            && after.Keys == sections.Keys
            && PrefVal(after, section, name) == Success(value)
            && ((section', name') != (section, name) ==> PrefVal(after, section', name') == PrefVal(sections, section', name'))
            && after[section].props.Keys == sections[section].props.Keys
            && after[section].props[name] == sections[section].props[name].(value := value)
            && (forall s :: s in sections && s != section ==> after[s] == sections[s])
            && (forall n :: n in sections[section].props && n != name ==> after[section].props[n] == sections[section].props[n])
  {
  }

  /** The property grid. */
  class PrefPropGrid {
    var sections: map<string, Section>
    var pages: map<int, Page>
    var pageNames: map<string, int>
    var helpText: map<string, string>
    var pageIdx: int

    /** Pages are numbered from 0 by the order they were added, so every
        page index lies below the next one and every name maps to a page. */
    ghost predicate Valid()
      reads this
    {
      && 0 <= pageIdx
      && (forall i :: i in pages ==> 0 <= i < pageIdx)
      && (forall n :: n in pageNames ==> pageNames[n] in pages && pages[pageNames[n]].name == n)
    }

    constructor ()
      ensures Valid()
      ensures sections == map[] && pages == map[] && pageNames == map[] && helpText == map[] && pageIdx == 0
    {
      sections := map[];
      pages := map[];
      pageNames := map[];
      helpText := map[];
      pageIdx := 0;
    }

    /** `addPage`: creates the listed sections that are missing, stores the
        page under the current index, maps the name to it, and moves the
        index on by one. The duplicate check looks the name up among the
        page indices and so never fires; re-adding a name rebinds it to the
        new page. The bitmap and the list-control entry are not modelled. */
    method AddPage(caption: string, name: string, sectionList: seq<string>) returns (r: Result<(), GridError>)
      requires Valid()
      modifies this`sections, this`pages, this`pageNames, this`pageIdx
      ensures Valid()
      ensures r.Failure? <==> StrKey(name) in PageKeys(old(pages))
      ensures r.Failure? ==> r == Failure(PageExists) && unchanged(this)
      ensures r.Success? ==>
                && sections == WithSections(old(sections), sectionList)
                && pages == old(pages)[old(pageIdx) := Page(name, sectionList)]
                && pageNames == old(pageNames)[name := old(pageIdx)]
                && pageIdx == old(pageIdx) + 1
      ensures r.Success? ==> old(pageIdx) !in old(pages) && forall i :: i in old(pages) ==> i in pages && pages[i] == old(pages)[i]
    {
      if StrKey(name) in PageKeys(pages) {
        return Failure(PageExists);
      }
      var created := sections;
      for k := 0 to |sectionList|
        invariant created == WithSections(sections, sectionList[..k])
      {
        assert sectionList[..k + 1][..k] == sectionList[..k];
        var s := sectionList[k];
        if s !in created {
          created := created[s := Props(map[])];
        }
      }
      assert sectionList[..|sectionList|] == sectionList;
      sections := created;
      pages := pages[pageIdx := Page(name, sectionList)];
      pageNames := pageNames[name := pageIdx];
      pageIdx := pageIdx + 1;
      r := Success(());
    }

    /** `addPage` with the duplicate check made against the page names,
        as its error message says it means to be. */
    method AddPageChecked(caption: string, name: string, sectionList: seq<string>) returns (r: Result<(), GridError>)
      requires Valid()
      modifies this`sections, this`pages, this`pageNames, this`pageIdx
      ensures Valid()
      ensures r.Failure? <==> name in old(pageNames)
      ensures r.Failure? ==> r == Failure(PageExists) && unchanged(this)
      ensures r.Success? ==>
                && sections == WithSections(old(sections), sectionList)
                && pages == old(pages)[old(pageIdx) := Page(name, sectionList)]
                && pageNames == old(pageNames)[name := old(pageIdx)]
                && pageIdx == old(pageIdx) + 1
      ensures r.Success? ==> old(pageIdx) !in old(pages) && forall i :: i in old(pages) ==> i in pages && pages[i] == old(pages)[i]
    {
      if name in pageNames {
        return Failure(PageExists);
      }
      PageNameNeverAKey(name, pages);
      r := AddPage(caption, name, sectionList);
    }

    /** The common body of the `add*Item` methods: make sure the section
        exists, starting it as `initial`, then store the property and its
        help text. */
    method AddItem(section: string, name: string, prop: Property, help: string, initial: Section)
      returns (r: Result<(), GridError>)
      requires Valid()
      modifies this`sections, this`helpText
      ensures Valid()
      ensures var before := Opened(old(sections), section, initial);
              match Updated(before, section, name, prop)
              case Failure(err) => r == Failure(err) && sections == before && helpText == old(helpText)
              case Success(updated) => r == Success(()) && sections == updated && helpText == old(helpText)[name := help]
    {
      if section !in sections {
        sections := sections[section := initial];
      }
      match sections[section]
      case EmptyList =>
        return Failure(NotADict(section));
      case Props(props) =>
        sections := sections[section := Props(props[name := prop])];
        helpText := helpText[name := help];
        return Success(());
    }

    /** `addStringItem`. The value is taken as the string `str(value)` gives. */
    method AddStringItem(section: string, caption: string, name: string, value: string, help: string)
      returns (r: Result<(), GridError>)
      requires Valid()
      modifies this`sections, this`helpText
      ensures Valid()
      ensures var before := Opened(old(sections), section, Props(map[]));
              match Updated(before, section, name, Property(StringProperty, caption, name, PStr(value)))
              case Failure(err) => r == Failure(err) && sections == before && helpText == old(helpText)
              case Success(updated) => r == Success(()) && sections == updated && helpText == old(helpText)[name := help]
    {
      r := AddItem(section, name, Property(StringProperty, caption, name, PStr(value)), help, Props(map[]));
    }

    /** `addStringArrayItem`, with the values already turned into strings. */
    method AddStringArrayItem(section: string, caption: string, name: string, values: seq<string>, help: string)
      returns (r: Result<(), GridError>)
      requires Valid()
      modifies this`sections, this`helpText
      ensures Valid()
      ensures var before := Opened(old(sections), section, Props(map[]));
              match Updated(before, section, name, Property(ArrayStringProperty, caption, name, StrList(values)))
              case Failure(err) => r == Failure(err) && sections == before && helpText == old(helpText)
              case Success(updated) => r == Success(()) && sections == updated && helpText == old(helpText)[name := help]
    {
      r := AddItem(section, name, Property(ArrayStringProperty, caption, name, StrList(values)), help, Props(map[]));
    }

    method AddBoolItem(section: string, caption: string, name: string, value: bool, help: string)
      returns (r: Result<(), GridError>)
      requires Valid()
      modifies this`sections, this`helpText
      ensures Valid()
      ensures var before := Opened(old(sections), section, Props(map[]));
              match Updated(before, section, name, Property(BoolProperty, caption, name, PBool(value)))
              case Failure(err) => r == Failure(err) && sections == before && helpText == old(helpText)
              case Success(updated) => r == Success(()) && sections == updated && helpText == old(helpText)[name := help]
    {
      r := AddItem(section, name, Property(BoolProperty, caption, name, PBool(value)), help, Props(map[]));
    }

    /** `addFileItem`: a section it creates is a list, so the item is only
        stored in a section that already exists. */
    method AddFileItem(section: string, caption: string, name: string, value: string, help: string)
      returns (r: Result<(), GridError>)
      requires Valid()
      modifies this`sections, this`helpText
      ensures Valid()
      ensures var before := Opened(old(sections), section, EmptyList);
              match Updated(before, section, name, Property(FileProperty, caption, name, PStr(value)))
              case Failure(err) => r == Failure(err) && sections == before && helpText == old(helpText)
              case Success(updated) => r == Success(()) && sections == updated && helpText == old(helpText)[name := help]
    {
      r := AddItem(section, name, Property(FileProperty, caption, name, PStr(value)), help, EmptyList);
    }

    /** `addFileItem` starting a new section as a dictionary, like the
        other `add*Item` methods. */
    method AddFileItemFixed(section: string, caption: string, name: string, value: string, help: string)
      returns (r: Result<(), GridError>)
      requires Valid()
      modifies this`sections, this`helpText
      ensures Valid()
      ensures var before := Opened(old(sections), section, Props(map[]));
              match Updated(before, section, name, Property(FileProperty, caption, name, PStr(value)))
              case Failure(err) => r == Failure(err) && sections == before && helpText == old(helpText)
              case Success(updated) => r == Success(()) && sections == updated && helpText == old(helpText)[name := help]
    {
      r := AddItem(section, name, Property(FileProperty, caption, name, PStr(value)), help, Props(map[]));
    }

    method AddDirItem(section: string, caption: string, name: string, value: string, help: string)
      returns (r: Result<(), GridError>)
      requires Valid()
      modifies this`sections, this`helpText
      ensures Valid()
      ensures var before := Opened(old(sections), section, Props(map[]));
              match Updated(before, section, name, Property(DirProperty, caption, name, PStr(value)))
              case Failure(err) => r == Failure(err) && sections == before && helpText == old(helpText)
              case Success(updated) => r == Success(()) && sections == updated && helpText == old(helpText)[name := help]
    {
      r := AddItem(section, name, Property(DirProperty, caption, name, PStr(value)), help, Props(map[]));
    }

    /** `addIntegerItem`. The value is taken as the integer `int(value)` gives. */
    method AddIntegerItem(section: string, caption: string, name: string, value: int, help: string)
      returns (r: Result<(), GridError>)
      requires Valid()
      modifies this`sections, this`helpText
      ensures Valid()
      ensures var before := Opened(old(sections), section, Props(map[]));
              match Updated(before, section, name, Property(IntProperty, caption, name, PInt(value)))
              case Failure(err) => r == Failure(err) && sections == before && helpText == old(helpText)
              case Success(updated) => r == Success(()) && sections == updated && helpText == old(helpText)[name := help]
    {
      r := AddItem(section, name, Property(IntProperty, caption, name, PInt(value)), help, Props(map[]));
    }

    method AddEnumItem(section: string, caption: string, name: string, labels: seq<string>, values: seq<int>,
                       value: PyVal, help: string)
      returns (r: Result<(), GridError>)
      requires Valid()
      modifies this`sections, this`helpText
      ensures Valid()
      ensures var before := Opened(old(sections), section, Props(map[]));
              match Updated(before, section, name, Property(EnumProperty(labels, values), caption, name, value))
              case Failure(err) => r == Failure(err) && sections == before && helpText == old(helpText)
              case Success(updated) => r == Success(()) && sections == updated && helpText == old(helpText)[name := help]
    {
      r := AddItem(section, name, Property(EnumProperty(labels, values), caption, name, value), help, Props(map[]));
    }

    /** `setPrefVal`: True once the property holds the value, False for a
        missing section or name. */
    method SetPrefVal(section: string, name: string, value: PyVal) returns (r: Result<bool, GridError>)
      modifies this`sections
      ensures old(Valid()) ==> Valid()
      ensures match WithPrefVal(old(sections), section, name, value)
              case Failure(err) => r == Failure(err) && sections == old(sections)
              case Success(None) => r == Success(false) && sections == old(sections)
              case Success(Some(after)) => r == Success(true) && sections == after
    {
      if section !in sections {
        return Success(false);
      }
      match sections[section]
      case EmptyList =>
        return Failure(NotADict(section));
      case Props(props) =>
        if name !in props {
          return Success(false);
        }
        sections := sections[section := Props(props[name := props[name].(value := value)])];
        return Success(true);
    }

    /** `getPrefVal`. */
    method GetPrefVal(section: string, name: string) returns (r: Result<PyVal, GridError>)
      ensures r == PrefVal(sections, section, name)
    {
      if section !in sections {
        return Success(PNone);
      }
      match sections[section]
      case EmptyList =>
        return Failure(NotADict(section));
      case Props(props) =>
        if name !in props {
          return Success(PNone);
        }
        return Success(props[name].value);
    }
  }

  /** A list of strings as a Python list value. */
  function StrList(xs: seq<string>): (r: PyVal)
    ensures r.PList? && |r.elems| == |xs| && forall k :: 0 <= k < |xs| ==> r.elems[k] == PStr(xs[k])
  {
    PList(seq(|xs|, k requires 0 <= k < |xs| => PStr(xs[k])))
  }
}
