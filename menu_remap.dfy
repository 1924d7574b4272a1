/**
 * The input-remapping page's descriptor list: for every user and every
 * remappable button, the core's description of the button (if it gave one)
 * becomes an entry whose type encodes the user and the button.
 */
module MenuRemap {
  import opened Common
  import opened MenuList

  /** Buttons per user on the page: the joypad buttons and the four analog half-axes after them. */
  function ButtonsPerUser(first: nat): nat
  {
    first + 4
  }

  /**
   * The slot of button `retroId` in a user's description table: joypad
   * buttons (below `first`, the first custom bind) keep their index; the
   * analog half-axes after them read every second slot.
   */
  function DescOffset(first: nat, retroId: nat): (r: nat)
    ensures retroId < first ==> r == retroId
    ensures retroId >= first ==> r >= retroId && (r - first) % 2 == 0
    ensures retroId < ButtonsPerUser(first) ==> r <= first + 6
  {
    if retroId >= first then first + (retroId - first) * 2 else retroId
  }

  /** The entry type of user `p`'s button `retroId`. */
  function EntryType(first: nat, descBegin: nat, p: nat, retroId: nat): nat
  {
    descBegin + p * ButtonsPerUser(first) + retroId
  }

  /** The description tables the loop reads: one row per user, each long enough for the largest offset. */
  predicate DescTable(descs: seq<seq<Option<string>>>, maxUsers: nat, first: nat)
  {
    maxUsers <= |descs| && forall p :: 0 <= p < |descs| ==> first + 6 < |descs[p]|
  }

  /** The entry of one button: none when the core gave no description. */
  function BindEntry(descs: seq<seq<Option<string>>>, first: nat, descBegin: nat, p: nat, retroId: nat): seq<MenuEntry>
    requires p < |descs| && retroId < ButtonsPerUser(first) && first + 6 < |descs[p]|
  {
    match descs[p][DescOffset(first, retroId)]
    case None => []
    case Some(d) => [RemapEntry(p + 1, d, EntryType(first, descBegin, p, retroId))]
  }

  /** The entries of user `p`'s first `n` buttons, in button order. */
  function BindEntries(descs: seq<seq<Option<string>>>, first: nat, descBegin: nat, p: nat, n: nat): seq<MenuEntry>
    requires p < |descs| && n <= ButtonsPerUser(first) && first + 6 < |descs[p]|
  {
    if n == 0 then [] else BindEntries(descs, first, descBegin, p, n - 1) + BindEntry(descs, first, descBegin, p, n - 1)
  }

  /** The entries of the first `n` users, user by user. */
  function UserEntries(descs: seq<seq<Option<string>>>, first: nat, descBegin: nat, n: nat): seq<MenuEntry>
    requires DescTable(descs, n, first)
  {
    if n == 0 then []
    else UserEntries(descs, first, descBegin, n - 1) + BindEntries(descs, first, descBegin, n - 1, ButtonsPerUser(first))
  }

  /** Everything the descriptor loop appends; nothing without a system description. */
  function RemapEntries(system: Option<seq<seq<Option<string>>>>, maxUsers: nat, first: nat, descBegin: nat): seq<MenuEntry>
    requires system.Some? ==> DescTable(system.value, maxUsers, first)
  {
    match system
    case None => []
    case Some(descs) => UserEntries(descs, first, descBegin, maxUsers)
  }

  /**
   * The descriptor loop of `menu_displaylist_parse_options_remappings`: for
   * each user below `maxUsers` and each button, appends the entry of every
   * described button.
   */
  method ParseRemapDescriptors(list: Menu, system: Option<seq<seq<Option<string>>>>, maxUsers: nat, first: nat, descBegin: nat)
    requires system.Some? ==> DescTable(system.value, maxUsers, first)
    modifies list
    ensures list.entries == old(list.entries) + RemapEntries(system, maxUsers, first, descBegin)
  {
    if system.None? {
      assert old(list.entries) + [] == old(list.entries);
      return;
    }
    var descs := system.value;
    var p := 0;
    while p < maxUsers
      invariant p <= maxUsers
      invariant list.entries == old(list.entries) + UserEntries(descs, first, descBegin, p)
    {
      ParseUserBinds(list, descs, first, descBegin, p);
      assert list.entries == old(list.entries) + UserEntries(descs, first, descBegin, p + 1) by {
        var u, b := UserEntries(descs, first, descBegin, p), BindEntries(descs, first, descBegin, p, ButtonsPerUser(first));
        assert old(list.entries) + u + b == old(list.entries) + (u + b);
      }
      p := p + 1;
    }
  }

  /** The inner loop: user `p`'s buttons in order. */
  method ParseUserBinds(list: Menu, descs: seq<seq<Option<string>>>, first: nat, descBegin: nat, p: nat)
    requires p < |descs| && first + 6 < |descs[p]|
    modifies list
    ensures list.entries == old(list.entries) + BindEntries(descs, first, descBegin, p, ButtonsPerUser(first))
  {
    var retroId := 0;
    while retroId < first + 4
      invariant retroId <= first + 4
      invariant list.entries == old(list.entries) + BindEntries(descs, first, descBegin, p, retroId)
    {
      BindStep(old(list.entries), list.entries, descs, first, descBegin, p, retroId);
      AddBind(list, descs, first, descBegin, p, retroId);
      retroId := retroId + 1;
    }
  }

  /** The body of the inner loop: appends button `retroId`'s entry, or nothing when it has no description. */
  method AddBind(list: Menu, descs: seq<seq<Option<string>>>, first: nat, descBegin: nat, p: nat, retroId: nat)
    requires p < |descs| && retroId < ButtonsPerUser(first) && first + 6 < |descs[p]|
    modifies list
    ensures list.entries == old(list.entries) + BindEntry(descs, first, descBegin, p, retroId)
  {
    var descOffset := DescOffset(first, retroId);
    var description := descs[p][descOffset];
    if description.None? {
      assert old(list.entries) + [] == old(list.entries);
      return;
    }
    list.Add(RemapEntry(p + 1, description.value, EntryType(first, descBegin, p, retroId)));
  }

  /** One step of the inner loop: button `r`'s entry, if any, comes next. */
  lemma BindStep(base: seq<MenuEntry>, entries: seq<MenuEntry>, descs: seq<seq<Option<string>>>,
                 first: nat, descBegin: nat, p: nat, r: nat)
    requires p < |descs| && r < ButtonsPerUser(first) && first + 6 < |descs[p]|
    requires entries == base + BindEntries(descs, first, descBegin, p, r)
    ensures base + BindEntries(descs, first, descBegin, p, r + 1) == entries + BindEntry(descs, first, descBegin, p, r)
  {
    var b, e := BindEntries(descs, first, descBegin, p, r), BindEntry(descs, first, descBegin, p, r);
    assert base + b + e == base + (b + e);
  }

  // ---------------------------------------------------------------------
  // Properties of the descriptor entries
  // ---------------------------------------------------------------------

  /** Different buttons read different slots. */
  lemma DescOffsetInjective(first: nat, a: nat, b: nat)
    requires a < b
    ensures DescOffset(first, a) < DescOffset(first, b)
  {
  }

  /** The entry type determines the user and the button: it decodes by division and remainder. */
  lemma EntryTypeDecode(first: nat, descBegin: nat, p: nat, retroId: nat)
    requires retroId < ButtonsPerUser(first)
    ensures var t := EntryType(first, descBegin, p, retroId);
      t >= descBegin &&
      (t - descBegin) / ButtonsPerUser(first) == p &&
      (t - descBegin) % ButtonsPerUser(first) == retroId
  {
    var n := ButtonsPerUser(first);
    var x := p * n + retroId;
    DivModUnique(x, n, p, retroId);
  }

  lemma {:induction false} DivModUnique(x: int, n: int, q: int, r: int)
    requires n > 0 && 0 <= r < n && x == q * n + r
    ensures x / n == q && x % n == r
  {
    var q', r' := x / n, x % n;
    assert x == q' * n + r';
    assert (q - q') * n == r' - r;
    if q > q' {
      assert (q - q') * n >= n by { MulAtLeast(q - q', n); }
    } else if q < q' {
      assert (q' - q) * n >= n by { MulAtLeast(q' - q, n); }
    }
  }

  lemma {:induction false} MulAtLeast(k: int, n: int)
    requires k >= 1 && n > 0
    ensures k * n >= n
  {
    assert k * n == (k - 1) * n + n;
  }

  /** Two buttons of any users share an entry type only if they are the same button of the same user. */
  lemma EntryTypeInjective(first: nat, descBegin: nat, p: nat, r: nat, p': nat, r': nat)
    requires r < ButtonsPerUser(first) && r' < ButtonsPerUser(first)
    requires EntryType(first, descBegin, p, r) == EntryType(first, descBegin, p', r')
    ensures p == p' && r == r'
  {
    EntryTypeDecode(first, descBegin, p, r);
    EntryTypeDecode(first, descBegin, p', r');
  }

  /** Every entry is a remap entry, and their types strictly increase and lie in `[lo, hi)`. */
  predicate TypesIncreasing(es: seq<MenuEntry>, lo: int, hi: int)
  {
    (forall i :: 0 <= i < |es| ==> es[i].RemapEntry? && lo <= es[i].entryType < hi) &&
    (forall i, j :: 0 <= i < j < |es| ==> es[i].entryType < es[j].entryType)
  }

  lemma TypesIncreasingAppend(a: seq<MenuEntry>, b: seq<MenuEntry>, lo: int, mid: int, hi: int)
    requires lo <= mid <= hi && TypesIncreasing(a, lo, mid) && TypesIncreasing(b, mid, hi)
    ensures TypesIncreasing(a + b, lo, hi)
  {
    forall i | 0 <= i < |a + b|
      ensures (a + b)[i].RemapEntry? && lo <= (a + b)[i].entryType < hi
    {
      if i >= |a| {
        assert (a + b)[i] == b[i - |a|];
      } else {
        assert (a + b)[i] == a[i];
      }
    }
    forall i, j | 0 <= i < j < |a + b|
      ensures (a + b)[i].entryType < (a + b)[j].entryType
    {
      if j < |a| {
        assert (a + b)[i] == a[i] && (a + b)[j] == a[j];
      } else if i >= |a| {
        assert (a + b)[i] == b[i - |a|] && (a + b)[j] == b[j - |a|];
      } else {
        assert (a + b)[i] == a[i] && (a + b)[j] == b[j - |a|];
      }
    }
  }

  /** User `p`'s first `n` entries have increasing types within the user's own block of types. */
  lemma {:induction false} BindTypesIncreasing(descs: seq<seq<Option<string>>>, first: nat, descBegin: nat, p: nat, n: nat)
    requires p < |descs| && n <= ButtonsPerUser(first) && first + 6 < |descs[p]|
    ensures var base := EntryType(first, descBegin, p, 0);
      TypesIncreasing(BindEntries(descs, first, descBegin, p, n), base, base + n)
  {
    if n > 0 {
      var base := EntryType(first, descBegin, p, 0);
      BindTypesIncreasing(descs, first, descBegin, p, n - 1);
      TypesIncreasingAppend(BindEntries(descs, first, descBegin, p, n - 1), BindEntry(descs, first, descBegin, p, n - 1),
        base, base + n - 1, base + n);
    }
  }

  /** The entry types of the whole page strictly increase, so no two entries share a type. */
  lemma {:induction false} UserTypesIncreasing(descs: seq<seq<Option<string>>>, first: nat, descBegin: nat, n: nat)
    requires DescTable(descs, n, first)
    ensures TypesIncreasing(UserEntries(descs, first, descBegin, n), descBegin, EntryType(first, descBegin, n, 0))
  {
    if n > 0 {
      UserTypesIncreasing(descs, first, descBegin, n - 1);
      BindTypesIncreasing(descs, first, descBegin, n - 1, ButtonsPerUser(first));
      assert EntryType(first, descBegin, n - 1, 0) + ButtonsPerUser(first) == EntryType(first, descBegin, n, 0) by {
        assert (n - 1) * ButtonsPerUser(first) + ButtonsPerUser(first) == n * ButtonsPerUser(first);
      }
      TypesIncreasingAppend(UserEntries(descs, first, descBegin, n - 1),
        BindEntries(descs, first, descBegin, n - 1, ButtonsPerUser(first)),
        descBegin, EntryType(first, descBegin, n - 1, 0), EntryType(first, descBegin, n, 0));
    }
  }

  /** `e` is the entry of user `p`'s button `r`: the button has a description and `e` carries it. */
  predicate Describes(descs: seq<seq<Option<string>>>, first: nat, descBegin: nat, p: nat, r: nat, e: MenuEntry)
  {
    p < |descs| && r < ButtonsPerUser(first) && DescOffset(first, r) < |descs[p]| &&
    e.RemapEntry? && descs[p][DescOffset(first, r)] == Some(e.description) &&
    e.user == p + 1 && e.entryType == EntryType(first, descBegin, p, r)
  }

  /** An entry is on user `p`'s list iff it describes one of the first `n` buttons. */
  lemma {:induction false} BindMembers(descs: seq<seq<Option<string>>>, first: nat, descBegin: nat, p: nat, n: nat, e: MenuEntry)
    requires p < |descs| && n <= ButtonsPerUser(first) && first + 6 < |descs[p]|
    ensures e in BindEntries(descs, first, descBegin, p, n) <==> exists r: nat :: r < n && Describes(descs, first, descBegin, p, r, e)
  {
    if n > 0 {
      BindMembers(descs, first, descBegin, p, n - 1, e);
      if e in BindEntry(descs, first, descBegin, p, n - 1) {
        assert Describes(descs, first, descBegin, p, n - 1, e);
      }
      if Describes(descs, first, descBegin, p, n - 1, e) {
        assert e in BindEntry(descs, first, descBegin, p, n - 1);
      }
    }
  }

  /**
   * An entry is on the page iff it describes a button of a user below `n`:
   * the button has a description, and the entry carries the user (counted
   * from 1), that description and that button's entry type.
   */
  lemma {:induction false} UserMembers(descs: seq<seq<Option<string>>>, first: nat, descBegin: nat, n: nat, e: MenuEntry)
    requires DescTable(descs, n, first)
    ensures e in UserEntries(descs, first, descBegin, n) <==>
      exists p: nat, r: nat :: p < n && Describes(descs, first, descBegin, p, r, e)
  {
    if n > 0 {
      UserMembers(descs, first, descBegin, n - 1, e);
      BindMembers(descs, first, descBegin, n - 1, ButtonsPerUser(first), e);
      if exists p: nat, r: nat :: p < n && Describes(descs, first, descBegin, p, r, e) {
        var p: nat, r: nat :| p < n && Describes(descs, first, descBegin, p, r, e);
        if p < n - 1 {
          assert exists p: nat, r: nat :: p < n - 1 && Describes(descs, first, descBegin, p, r, e);
        } else {
          assert r < ButtonsPerUser(first) && Describes(descs, first, descBegin, n - 1, r, e);
        }
      }
    }
  }
}
