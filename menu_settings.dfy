/**
 * The settings scan that fills a menu page from the settings list: starting
 * at one setting, it walks forward, appends the settings whose type the parse
 * mode accepts, and stops after one setting or at the setting whose type is
 * the mode's stop type.
 */
module MenuSettings {
  import opened Common
  import opened MenuList

  /** The setting types the scan distinguishes. */
  datatype SettingType =
    | StNone | StAction | StBool | StInt | StUInt | StFloat | StPath | StDir
    | StString | StStringOptions | StHex | StBind
    | StGroup | StSubGroup | StEndGroup | StEndSubGroup

  /** The parse modes. */
  datatype ParseType =
    | ParseNone | ParseGroup | ParseAction
    | ParseOnlyInt | ParseOnlyUInt | ParseOnlyBool | ParseOnlyFloat | ParseOnlyBind
    | ParseOnlyGroup | ParseOnlyString | ParseOnlyPath | ParseOnlyStringOptions
    | ParseSubGroup

  /**
   * One element of the settings list: its short description, its name, its
   * type, whether it carries the "advanced" flag, and the entry type the
   * list item gets.
   */
  datatype Setting = Setting(shortDescription: string, name: string, kind: SettingType, advanced: bool, entryType: nat)

  /** The type at which a group mode stops; for a single mode, the type it looks for. */
  function Precond(pt: ParseType): SettingType
  {
    match pt
    case ParseGroup | ParseSubGroup => StNone
    case ParseAction => StAction
    case ParseOnlyInt => StInt
    case ParseOnlyUInt => StUInt
    case ParseOnlyBind => StBind
    case ParseOnlyBool => StBool
    case ParseOnlyFloat => StFloat
    case ParseOnlyString => StString
    case ParseOnlyPath => StPath
    case ParseOnlyStringOptions => StStringOptions
    case ParseOnlyGroup | ParseNone => StEndGroup
  }

  /** The modes that inspect exactly one setting. */
  predicate Single(pt: ParseType)
  {
    !(pt == ParseNone || pt == ParseGroup || pt == ParseOnlyGroup || pt == ParseSubGroup)
  }

  /** Whether a setting of type `kind` becomes an entry in mode `pt`. */
  predicate Accept(pt: ParseType, kind: SettingType)
  {
    match pt
    case ParseNone => !(kind == StGroup || kind == StEndGroup || kind == StSubGroup || kind == StEndSubGroup)
    case ParseGroup | ParseOnlyGroup => kind == StGroup
    case ParseSubGroup => true
    // each single mode accepts exactly the type it looks for
    case _ => kind == Precond(pt)
  }

  /** The list item a setting becomes. */
  function EntryOf(s: Setting): MenuEntry
  {
    SettingEntry(s.shortDescription, s.name, s.entryType)
  }

  /** The first setting at or after `from` whose type is `kind`. */
  function FirstOfKind(settings: seq<Setting>, from: nat, kind: SettingType): (r: nat)
    requires exists k :: from <= k < |settings| && settings[k].kind == kind
    ensures from <= r < |settings| && settings[r].kind == kind
    ensures forall k :: from <= k < r ==> settings[k].kind != kind
    decreases |settings| - from
  {
    if settings[from].kind == kind then from else FirstOfKind(settings, from + 1, kind)
  }

  /** What the scan may rely on: a single mode needs its one setting, a group mode a setting of its stop type ahead. */
  predicate Scannable(settings: seq<Setting>, start: nat, pt: ParseType)
  {
    start < |settings| &&
    (!Single(pt) ==> exists k :: start <= k < |settings| && settings[k].kind == Precond(pt))
  }

  /** The index of the last setting inspected. */
  function StopIndex(settings: seq<Setting>, start: nat, pt: ParseType): nat
    requires Scannable(settings, start, pt)
  {
    if Single(pt) then start else FirstOfKind(settings, start, Precond(pt))
  }

  /**
   * The entries appended while walking `settings[lo..hi]`, in list order: a
   * setting is added when its type is accepted and the page is not hidden.
   */
  function Added(pt: ParseType, settings: seq<Setting>, hidden: bool, lo: nat, hi: nat): seq<MenuEntry>
    requires lo <= hi <= |settings|
    decreases hi - lo
  {
    if hi == lo then []
    else
      var last := if Accept(pt, settings[hi - 1].kind) && !hidden then [EntryOf(settings[hi - 1])] else [];
      Added(pt, settings, hidden, lo, hi - 1) + last
  }

  /** The "advanced" flag of the FIRST setting hides every setting when advanced settings are not shown. */
  predicate Hidden(settings: seq<Setting>, start: nat, showAdvanced: bool)
    requires start < |settings|
  {
    settings[start].advanced && !showAdvanced
  }

  /** Everything the scan appends. */
  function ScanEntries(settings: seq<Setting>, start: nat, pt: ParseType, addEmpty: bool, showAdvanced: bool): seq<MenuEntry>
    requires Scannable(settings, start, pt)
  {
    var added := Added(pt, settings, Hidden(settings, start, showAdvanced), start, StopIndex(settings, start, pt) + 1);
    added + (if added == [] && addEmpty then [NoSettingsFound] else [])
  }

  /**
   * `menu_displaylist_parse_settings_internal`: a missing start setting
   * gives -1 and appends nothing; otherwise the scan appends
   * `ScanEntries` and gives 0.
   */
  method ParseSettings(list: Menu, settings: seq<Setting>, start: Option<nat>, pt: ParseType,
                       addEmpty: bool, showAdvanced: bool) returns (status: int)
    requires start.Some? ==> Scannable(settings, start.value, pt)
    modifies list
    ensures start.None? ==> status == -1 && list.entries == old(list.entries)
    ensures start.Some? ==>
      (status == 0 && list.entries == old(list.entries) + ScanEntries(settings, start.value, pt, addEmpty, showAdvanced))
  {
    if start.None? {
      return -1;
    }
    var s := start.value;
    var hidden := settings[s].advanced && !showAdvanced;
    var count := ScanFrom(list, settings, s, pt, hidden);
    ghost var added := Added(pt, settings, hidden, s, StopIndex(settings, s, pt) + 1);
    assert count == 0 <==> added == [];
    if count == 0 && addEmpty {
      list.Add(NoSettingsFound);
    }
    return 0;
  }

  /**
   * The `for (;;)` walk from `settings[s]` to the stop index; `hidden` is
   * the first setting's verdict, applied to every setting. Gives the number
   * of entries appended.
   */
  method ScanFrom(list: Menu, settings: seq<Setting>, s: nat, pt: ParseType, hidden: bool) returns (count: nat)
    requires Scannable(settings, s, pt)
    modifies list
    ensures list.entries == old(list.entries) + Added(pt, settings, hidden, s, StopIndex(settings, s, pt) + 1)
    ensures count == |list.entries| - |old(list.entries)|
  {
    ghost var stop := StopIndex(settings, s, pt);
    var precond := Precond(pt);
    var single := Single(pt);
    count := 0;
    var i := s;
    while true
      invariant s <= i <= stop
      invariant list.entries == old(list.entries) + Added(pt, settings, hidden, s, i)
      invariant count == |Added(pt, settings, hidden, s, i)|
      decreases stop - i
    {
      var kind := settings[i].kind;
      AddedStep(old(list.entries), list.entries, pt, settings, hidden, s, i);
      if Accept(pt, kind) && !hidden {
        list.Add(EntryOf(settings[i]));
        count := count + 1;
      }
      if single || kind == precond {
        break;
      }
      i := i + 1;
    }
  }

  /** One step of the walk: the setting at `i` is appended or not, as `Added` says. */
  lemma AddedStep(base: seq<MenuEntry>, entries: seq<MenuEntry>, pt: ParseType, settings: seq<Setting>,
                  hidden: bool, lo: nat, i: nat)
    requires lo <= i < |settings|
    requires entries == base + Added(pt, settings, hidden, lo, i)
    ensures Accept(pt, settings[i].kind) && !hidden ==>
      entries + [EntryOf(settings[i])] == base + Added(pt, settings, hidden, lo, i + 1) &&
      |Added(pt, settings, hidden, lo, i + 1)| == |Added(pt, settings, hidden, lo, i)| + 1
    ensures !(Accept(pt, settings[i].kind) && !hidden) ==>
      entries == base + Added(pt, settings, hidden, lo, i + 1) &&
      |Added(pt, settings, hidden, lo, i + 1)| == |Added(pt, settings, hidden, lo, i)|
  {
  }

  // ---------------------------------------------------------------------
  // Properties of the scan
  // ---------------------------------------------------------------------

  /** A setting's entry is among the added ones iff the page is not hidden and some setting in range is accepted and produces it. */
  lemma {:induction false} AddedMembers(pt: ParseType, settings: seq<Setting>, hidden: bool, lo: nat, hi: nat, e: MenuEntry)
    requires lo <= hi <= |settings|
    ensures e in Added(pt, settings, hidden, lo, hi) <==>
      !hidden && exists k :: lo <= k < hi && Accept(pt, settings[k].kind) && e == EntryOf(settings[k])
    decreases hi - lo
  {
    if hi > lo {
      AddedMembers(pt, settings, hidden, lo, hi - 1, e);
      var last := if Accept(pt, settings[hi - 1].kind) && !hidden then [EntryOf(settings[hi - 1])] else [];
      assert Added(pt, settings, hidden, lo, hi) == Added(pt, settings, hidden, lo, hi - 1) + last;
      if e in last {
        assert lo <= hi - 1 < hi && Accept(pt, settings[hi - 1].kind) && e == EntryOf(settings[hi - 1]);
      }
    }
  }

  /** At most one entry per setting, and none exactly when the page is hidden or no setting in range is accepted. */
  lemma {:induction false} AddedCount(pt: ParseType, settings: seq<Setting>, hidden: bool, lo: nat, hi: nat)
    requires lo <= hi <= |settings|
    ensures |Added(pt, settings, hidden, lo, hi)| <= hi - lo
    ensures Added(pt, settings, hidden, lo, hi) == [] <==>
      hidden || forall k :: lo <= k < hi ==> !Accept(pt, settings[k].kind)
    ensures NoSettingsFound !in Added(pt, settings, hidden, lo, hi)
    decreases hi - lo
  {
    if hi > lo {
      AddedCount(pt, settings, hidden, lo, hi - 1);
    }
  }

  /**
   * A single mode appends the start setting iff its type is the one looked
   * for (and it is not hidden); nothing else from the list is looked at.
   */
  lemma SingleInspectsOne(settings: seq<Setting>, start: nat, pt: ParseType, addEmpty: bool, showAdvanced: bool)
    requires Single(pt) && Scannable(settings, start, pt)
    ensures var hit := settings[start].kind == Precond(pt) && !Hidden(settings, start, showAdvanced);
      ScanEntries(settings, start, pt, addEmpty, showAdvanced) ==
        if hit then [EntryOf(settings[start])] else if addEmpty then [NoSettingsFound] else []
  {
    assert Added(pt, settings, Hidden(settings, start, showAdvanced), start, start) == [];
  }

  /** With advanced settings not shown, an advanced first setting leaves the page empty but for the placeholder. */
  lemma HiddenAddsNoSettings(settings: seq<Setting>, start: nat, pt: ParseType, addEmpty: bool, showAdvanced: bool)
    requires Scannable(settings, start, pt) && Hidden(settings, start, showAdvanced)
    ensures ScanEntries(settings, start, pt, addEmpty, showAdvanced) == if addEmpty then [NoSettingsFound] else []
  {
    AddedCount(pt, settings, true, start, StopIndex(settings, start, pt) + 1);
  }

  /**
   * The membership of a setting entry: it is on the page iff some inspected
   * setting is accepted and produces it, and the first setting does not hide
   * the page.
   */
  lemma ScanMembers(settings: seq<Setting>, start: nat, pt: ParseType, addEmpty: bool, showAdvanced: bool, e: MenuEntry)
    requires Scannable(settings, start, pt) && e != NoSettingsFound
    ensures e in ScanEntries(settings, start, pt, addEmpty, showAdvanced) <==>
      !Hidden(settings, start, showAdvanced) &&
      exists k :: start <= k <= StopIndex(settings, start, pt) && Accept(pt, settings[k].kind) && e == EntryOf(settings[k])
  {
    AddedMembers(pt, settings, Hidden(settings, start, showAdvanced), start, StopIndex(settings, start, pt) + 1, e);
  }

  /**
   * The "no settings found" placeholder is appended iff it was asked for and
   * no inspected setting was added.
   */
  lemma EmptyEntryIff(settings: seq<Setting>, start: nat, pt: ParseType, addEmpty: bool, showAdvanced: bool)
    requires Scannable(settings, start, pt)
    ensures NoSettingsFound in ScanEntries(settings, start, pt, addEmpty, showAdvanced) <==>
      addEmpty &&
      (Hidden(settings, start, showAdvanced) ||
       forall k :: start <= k <= StopIndex(settings, start, pt) ==> !Accept(pt, settings[k].kind))
  {
    var stop := StopIndex(settings, start, pt);
    var hidden := Hidden(settings, start, showAdvanced);
    AddedCount(pt, settings, hidden, start, stop + 1);
  }

  /**
   * Of the group modes, only the sub-group mode appends the setting it stops
   * at (the list's `StNone` terminator); the others never accept their stop type.
   */
  lemma StopSettingAdded(settings: seq<Setting>, start: nat, pt: ParseType, showAdvanced: bool)
    requires Scannable(settings, start, pt) && !Single(pt) && !Hidden(settings, start, showAdvanced)
    ensures pt == ParseSubGroup ==>
      var stop := StopIndex(settings, start, pt);
      ScanEntries(settings, start, pt, false, showAdvanced) == Added(pt, settings, false, start, stop) + [EntryOf(settings[stop])]
    ensures pt != ParseSubGroup ==>
      var stop := StopIndex(settings, start, pt);
      ScanEntries(settings, start, pt, false, showAdvanced) == Added(pt, settings, false, start, stop)
  {
  }
}
