/**
 * The menu list the display-list builders append to (`file_list_t`), and
 * the entries they append.
 */
module MenuList {

  /**
   * One appended menu entry. Localised strings looked up by message hash are
   * represented by the entry kind that names them.
   */
  datatype MenuEntry =
    | NoEntriesToDisplay
    | NoSettingsFound
    | TextEntry(path: string, entryLabel: string, entryType: nat)
    | SettingEntry(shortDescription: string, name: string, entryType: nat)
    | RemapEntry(user: nat, description: string, entryType: nat)

  /** A menu list; only its entries, in order, are modelled. */
  class Menu {
    var entries: seq<MenuEntry>

    constructor ()
      ensures entries == []
    {
      entries := [];
    }

    /** `menu_entries_add_enum`: appends one entry. */
    method Add(e: MenuEntry)
      modifies this
      ensures entries == old(entries) + [e]
    {
      entries := entries + [e];
    }
  }
}
