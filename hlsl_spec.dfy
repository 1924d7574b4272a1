/**
 * Value-level model of the HLSL shader-chain backend: the contents of one
 * pass slot, what compiling into a slot does, handle resolution, teardown
 * and the per-frame parameter pushes, each as a function over values, with
 * the properties the backend relies on proved as lemmas.
 *
 * Device objects (pixel and vertex shaders, constant tables, parameter
 * handles) are opaque identities `Id`; the device hands out fresh ones from
 * a counter, so "created by this call" reads as "at least the old counter".
 */
module HlslSpec {
  import opened Common

  type Id = nat

  /** The well-known constant names a program may declare. */
  datatype Param = VideoSize | TextureSize | OutputSize | FrameCount | FrameDirection | ModelViewProj

  datatype Stage = Fragment | Vertex

  /** The five per-stage parameter handles; `None` is a parameter the program does not declare. */
  datatype StageHandles = StageHandles(
    videoSize: Option<Id>,
    textureSize: Option<Id>,
    outputSize: Option<Id>,
    frameCount: Option<Id>,
    frameDirection: Option<Id>)

  const NoHandles := StageHandles(None, None, None, None, None)

  /** The five parameters pushed every frame (the projection matrix is pushed separately). */
  predicate PerFrame(p: Param)
  {
    p != ModelViewProj
  }

  function HandleOf(h: StageHandles, p: Param): Option<Id>
  {
    match p
    case VideoSize => h.videoSize
    case TextureSize => h.textureSize
    case OutputSize => h.outputSize
    case FrameCount => h.frameCount
    case FrameDirection => h.frameDirection
    case ModelViewProj => None
  }

  /** The cached model-view-projection matrix; its float entries are not modelled. */
  datatype Matrix = Zero | Identity | Supplied(tag: nat)

  /** One entry of the pass slot table (`struct shader_program_hlsl_data`). */
  datatype Slot = Slot(
    vprg: Option<Id>,
    fprg: Option<Id>,
    vTable: Option<Id>,
    fTable: Option<Id>,
    fHandles: StageHandles,
    vHandles: StageHandles,
    mvp: Option<Id>,
    mvpVal: Matrix)

  /** A zero-filled slot, as `calloc` leaves it. */
  const EmptySlot := Slot(None, None, None, None, NoHandles, NoHandles, None, Zero)

  /** Both programs of the slot are present. */
  predicate Loaded(s: Slot)
  {
    s.vprg.Some? && s.fprg.Some?
  }

  function HandlesOf(s: Slot, st: Stage): StageHandles
  {
    if st == Fragment then s.fHandles else s.vHandles
  }

  function TableOf(s: Slot, st: Stage): Option<Id>
  {
    if st == Fragment then s.fTable else s.vTable
  }

  /** Where a program's text comes from. */
  datatype Source =
    | Stock                                  // the built-in passthrough program
    | PlainFile(path: string)                // a single file named by the caller
    | PresetPass(preset: string, path: string) // a pass path, relative to the preset file

  /** What the compiler answers for the `main_fragment` and the `main_vertex` entry points. */
  datatype Verdict = Verdict(fragmentOk: bool, vertexOk: bool)

  /** The slot table together with the device's next fresh identity. */
  datatype SlotTable = SlotTable(slots: seq<Slot>, next: nat)

  /** Every program identity in the table was handed out before `next`. */
  predicate IdsBelow(s: seq<Slot>, next: nat)
  {
    forall i :: 0 <= i < |s| ==>
      (s[i].fprg.Some? ==> s[i].fprg.value < next) && (s[i].vprg.Some? ==> s[i].vprg.value < next)
  }

  /**
   * The aliasing rule: two user slots share a program only when it is
   * slot 0's program (the plain-mode copy of the stock slot).
   */
  ghost predicate AliasDiscipline(s: seq<Slot>)
  {
    |s| >= 1 &&
    (forall i, j :: 1 <= i < j < |s| && s[i].fprg.Some? && s[i].fprg == s[j].fprg ==> s[i].fprg == s[0].fprg) &&
    (forall i, j :: 1 <= i < j < |s| && s[i].vprg.Some? && s[i].vprg == s[j].vprg ==> s[i].vprg == s[0].vprg)
  }

  // ---------------------------------------------------------------------
  // Compilation into a slot
  // ---------------------------------------------------------------------

  /**
   * Compiling a program into a slot. The fragment stage is compiled first:
   * when it fails nothing is touched; when only the vertex stage fails the
   * fragment constant table has already been created; only when both
   * succeed are the two shader objects created.
   */
  function Compile(s: Slot, v: Verdict, next: nat): (r: (Slot, nat, bool))
    ensures r.2 <==> v.fragmentOk && v.vertexOk
    ensures !v.fragmentOk ==> r.0 == s && r.1 == next
    ensures v.fragmentOk ==> r.0.fTable == Some(next)
    ensures v.fragmentOk && !v.vertexOk ==> r.0 == s.(fTable := Some(next)) && r.1 == next + 1
    ensures r.2 ==> r.0.fprg == Some(next + 2) && r.0.vprg == Some(next + 3) && r.1 == next + 4
    ensures r.0.fHandles == s.fHandles && r.0.vHandles == s.vHandles && r.0.mvp == s.mvp && r.0.mvpVal == s.mvpVal
  {
    if !v.fragmentOk then (s, next, false)
    else if !v.vertexOk then (s.(fTable := Some(next)), next + 1, false)
    else (s.(fTable := Some(next), vTable := Some(next + 1), fprg := Some(next + 2), vprg := Some(next + 3)), next + 4, true)
  }

  function CompileAt(t: SlotTable, k: nat, v: Verdict): (r: (SlotTable, bool))
    requires k < |t.slots|
    ensures |r.0.slots| == |t.slots|
  {
    var (s, next, ok) := Compile(t.slots[k], v, t.next);
    (SlotTable(t.slots[k := s], next), ok)
  }

  /** Compiling into one slot leaves every other slot alone and only hands out fresh identities. */
  lemma CompileAtFrame(t: SlotTable, k: nat, v: Verdict)
    requires k < |t.slots|
    ensures var r := CompileAt(t, k, v);
      |r.0.slots| == |t.slots| && t.next <= r.0.next &&
      (forall i :: 0 <= i < |t.slots| && i != k ==> r.0.slots[i] == t.slots[i]) &&
      (r.1 <==> v.fragmentOk && v.vertexOk) &&
      (r.1 ==> Loaded(r.0.slots[k]))
  {
  }

  /** Compiling into a user slot keeps the aliasing rule and the freshness bound. */
  lemma {:induction false} CompileKeepsDiscipline(t: SlotTable, k: nat, v: Verdict)
    requires 1 <= k < |t.slots|
    requires AliasDiscipline(t.slots) && IdsBelow(t.slots, t.next)
    ensures AliasDiscipline(CompileAt(t, k, v).0.slots) && IdsBelow(CompileAt(t, k, v).0.slots, CompileAt(t, k, v).0.next)
  {
    var r := CompileAt(t, k, v).0;
    var s := r.slots;
    assert forall m :: 0 <= m < |s| && m != k ==> s[m] == t.slots[m];
    if v.fragmentOk && v.vertexOk {
      assert s[k].fprg.value >= t.next && s[k].vprg.value >= t.next;
    } else {
      assert s[k].fprg == t.slots[k].fprg && s[k].vprg == t.slots[k].vprg;
    }
  }

  /** A table whose user slots hold no programs satisfies the aliasing rule. */
  lemma NoUserProgramsDiscipline(s: seq<Slot>)
    requires |s| >= 1
    requires forall i :: 1 <= i < |s| ==> s[i].fprg.None? && s[i].vprg.None?
    ensures AliasDiscipline(s)
  {
  }

  /** Aliasing slot 1 to slot 0 (`prg[1] = prg[0]`) keeps the aliasing rule. */
  lemma AliasKeepsDiscipline(s: seq<Slot>)
    requires |s| >= 2 && AliasDiscipline(s)
    ensures AliasDiscipline(s[1 := s[0]])
  {
  }

  // ---------------------------------------------------------------------
  // Preset passes
  // ---------------------------------------------------------------------

  /** All verdicts in `vs` are full successes. */
  predicate AllCompile(vs: seq<Verdict>)
  {
    forall i :: 0 <= i < |vs| ==> vs[i].fragmentOk && vs[i].vertexOk
  }

  /**
   * Loading preset passes: pass `i` is compiled into slot `i + 1`, in order,
   * stopping at the first pass that fails.
   */
  function LoadPasses(t: SlotTable, vs: seq<Verdict>): (r: (SlotTable, bool))
    requires |vs| < |t.slots|
    ensures |r.0.slots| == |t.slots|
    decreases |vs|
  {
    if vs == [] then (t, true)
    else
      var (u, ok) := LoadPasses(t, vs[..|vs| - 1]);
      if !ok then (u, false)
      else CompileAt(u, |vs|, vs[|vs| - 1])
  }

  /** Loading passes keeps the table's size and slot 0, and only touches slots `1 .. |vs|`. */
  lemma {:induction false} LoadPassesFrame(t: SlotTable, vs: seq<Verdict>)
    requires |vs| < |t.slots|
    ensures var r := LoadPasses(t, vs).0;
      |r.slots| == |t.slots| && t.next <= r.next && r.slots[0] == t.slots[0] &&
      forall k :: |vs| < k < |t.slots| ==> r.slots[k] == t.slots[k]
    decreases |vs|
  {
    if vs != [] {
      LoadPassesFrame(t, vs[..|vs| - 1]);
    }
  }

  /** The load succeeds exactly when every pass compiles. */
  lemma {:induction false} LoadPassesOk(t: SlotTable, vs: seq<Verdict>)
    requires |vs| < |t.slots|
    ensures LoadPasses(t, vs).1 <==> AllCompile(vs)
    decreases |vs|
  {
    if vs != [] {
      var init := vs[..|vs| - 1];
      LoadPassesOk(t, init);
      LoadPassesFrame(t, init);
      assert AllCompile(vs) <==> AllCompile(init) && vs[|vs| - 1].fragmentOk && vs[|vs| - 1].vertexOk by {
        assert forall i :: 0 <= i < |init| ==> init[i] == vs[i];
      }
    }
  }

  /**
   * Every pass before the first failure (all of them on success) ends up
   * loaded in its slot `i + 1`; a failure releases nothing that was loaded.
   */
  lemma {:induction false} LoadPassesLoaded(t: SlotTable, vs: seq<Verdict>, k: nat)
    requires |vs| < |t.slots|
    requires 1 <= k <= |vs| && AllCompile(vs[..k])
    ensures Loaded(LoadPasses(t, vs).0.slots[k])
    decreases |vs|
  {
    var init := vs[..|vs| - 1];
    LoadPassesFrame(t, init);
    if k == |vs| {
      assert AllCompile(init) by { assert forall i :: 0 <= i < |init| ==> init[i] == vs[..k][i]; }
      LoadPassesOk(t, init);
      assert vs[..k][|vs| - 1] == vs[|vs| - 1];
    } else {
      assert init[..k] == vs[..k];
      LoadPassesLoaded(t, init, k);
      var (u, ok) := LoadPasses(t, init);
      if ok {
        CompileAtFrame(u, |vs|, vs[|vs| - 1]);
      }
    }
  }

  /** On success, pass `i` holds programs created by this load, one fresh pair per pass. */
  lemma {:induction false} LoadPassesIds(t: SlotTable, vs: seq<Verdict>)
    requires |vs| < |t.slots| && AllCompile(vs)
    ensures var r := LoadPasses(t, vs).0;
      r.next == t.next + 4 * |vs| &&
      forall k :: 1 <= k <= |vs| ==>
        r.slots[k].fprg == Some(t.next + 4 * (k - 1) + 2) && r.slots[k].vprg == Some(t.next + 4 * (k - 1) + 3)
    decreases |vs|
  {
    if vs != [] {
      var init := vs[..|vs| - 1];
      assert AllCompile(init) by { assert forall i :: 0 <= i < |init| ==> init[i] == vs[i]; }
      LoadPassesIds(t, init);
      LoadPassesOk(t, init);
      LoadPassesFrame(t, init);
    }
  }

  /** Loading passes over a table that satisfies the aliasing rule keeps it. */
  lemma {:induction false} LoadPassesKeepsDiscipline(t: SlotTable, vs: seq<Verdict>)
    requires |vs| < |t.slots|
    requires AliasDiscipline(t.slots) && IdsBelow(t.slots, t.next)
    ensures AliasDiscipline(LoadPasses(t, vs).0.slots) && IdsBelow(LoadPasses(t, vs).0.slots, LoadPasses(t, vs).0.next)
    decreases |vs|
  {
    if vs != [] {
      var init := vs[..|vs| - 1];
      LoadPassesKeepsDiscipline(t, init);
      LoadPassesFrame(t, init);
      var (u, ok) := LoadPasses(t, init);
      if ok {
        CompileKeepsDiscipline(u, |vs|, vs[|vs| - 1]);
      }
    }
  }

  /** Once a pass has failed, attempting more passes changes nothing. */
  lemma {:induction false} LoadPassesStuck(t: SlotTable, vs: seq<Verdict>, k: nat)
    requires |vs| < |t.slots| && k <= |vs|
    requires !LoadPasses(t, vs[..k]).1
    ensures LoadPasses(t, vs) == LoadPasses(t, vs[..k])
    decreases |vs|
  {
    if k < |vs| {
      var init := vs[..|vs| - 1];
      assert init[..k] == vs[..k];
      LoadPassesStuck(t, init, k);
    } else {
      assert vs[..k] == vs;
    }
  }

  // ---------------------------------------------------------------------
  // Pass count cap
  // ---------------------------------------------------------------------

  /** `RARCH_HLSL_MAX_SHADERS - 3`: the most passes a preset may load. */
  function MaxPresetPasses(maxShaders: nat): nat
    requires maxShaders >= 3
  {
    maxShaders - 3
  }

  /** The declared pass count, capped at the preset limit. */
  function CappedPasses(declared: nat, maxShaders: nat): (n: nat)
    requires maxShaders >= 3
    ensures n <= declared && n <= MaxPresetPasses(maxShaders)
    ensures n == declared || n == MaxPresetPasses(maxShaders)
  {
    if declared > MaxPresetPasses(maxShaders) then MaxPresetPasses(maxShaders) else declared
  }

  // ---------------------------------------------------------------------
  // Handle resolution
  // ---------------------------------------------------------------------

  /** Looks up the five per-frame names in one constant table. */
  function StageLookup(table: Id, lookup: (Id, Param) -> Option<Id>): StageHandles
  {
    StageHandles(lookup(table, VideoSize), lookup(table, TextureSize), lookup(table, OutputSize),
                 lookup(table, FrameCount), lookup(table, FrameDirection))
  }

  /** Resolves a slot's handles: what the tables declare, nothing for a missing table. */
  function Resolve(s: Slot, lookup: (Id, Param) -> Option<Id>): (r: Slot)
  {
    Slot(s.vprg, s.fprg, s.vTable, s.fTable,
         if s.fTable.Some? then StageLookup(s.fTable.value, lookup) else s.fHandles,
         if s.vTable.Some? then StageLookup(s.vTable.value, lookup) else s.vHandles,
         if s.vTable.Some? then lookup(s.vTable.value, ModelViewProj) else s.mvp,
         Identity)
  }

  /**
   * Resolution keeps the programs and tables, resets the cached matrix to the
   * identity, and gives each stage exactly the handles its table declares.
   */
  lemma ResolveHandles(s: Slot, lookup: (Id, Param) -> Option<Id>, st: Stage, p: Param)
    requires PerFrame(p)
    ensures var r := Resolve(s, lookup);
      r.vprg == s.vprg && r.fprg == s.fprg && r.vTable == s.vTable && r.fTable == s.fTable && r.mvpVal == Identity &&
      HandleOf(HandlesOf(r, st), p) ==
        (if TableOf(s, st).Some? then lookup(TableOf(s, st).value, p) else HandleOf(HandlesOf(s, st), p))
  {
  }

  /** Slots `lo ..= hi` resolved, the others untouched. */
  function ResolveRange(s: seq<Slot>, lo: nat, hi: nat, lookup: (Id, Param) -> Option<Id>): (r: seq<Slot>)
    ensures |r| == |s|
    ensures forall i :: 0 <= i < |s| ==> r[i] == if lo <= i <= hi then Resolve(s[i], lookup) else s[i]
  {
    seq(|s|, i requires 0 <= i < |s| => if lo <= i <= hi then Resolve(s[i], lookup) else s[i])
  }

  // ---------------------------------------------------------------------
  // Device events
  // ---------------------------------------------------------------------

  /** A value pushed into a constant table (the floats are represented by their integer sources). */
  datatype Value = Vec2(x: int, y: int) | Scalar(n: int) | Mat(m: Matrix)

  /** What the backend asks of the device, in order. */
  datatype Event =
    | FreePixel(id: Id)
    | FreeVertex(id: Id)
    | BindVertex(index: nat, shader: Option<Id>)
    | BindPixel(shader: Option<Id>)
    | SetDefaults(table: Option<Id>)
    | SetParam(stage: Stage, table: Option<Id>, handle: Id, param: Param, value: Value)

  // ---------------------------------------------------------------------
  // Teardown
  // ---------------------------------------------------------------------

  /** Frees for one user slot: only present programs that are not slot 0's. */
  function SlotFrees(s: Slot, base: Slot): seq<Event>
  {
    (if s.fprg.Some? && s.fprg != base.fprg then [FreePixel(s.fprg.value)] else []) +
    (if s.vprg.Some? && s.vprg != base.vprg then [FreeVertex(s.vprg.value)] else [])
  }

  /** Frees for slot 0: whatever is present. */
  function BaseFrees(base: Slot): seq<Event>
  {
    (if base.fprg.Some? then [FreePixel(base.fprg.value)] else []) +
    (if base.vprg.Some? then [FreeVertex(base.vprg.value)] else [])
  }

  /** Frees issued by the teardown loop for slots `1 .. n - 1`. */
  function LoopFrees(s: seq<Slot>, n: nat): seq<Event>
    requires 1 <= n <= |s|
  {
    if n == 1 then [] else LoopFrees(s, n - 1) + SlotFrees(s[n - 1], s[0])
  }

  /** All frees of a teardown: the user slots in order, slot 0 last. */
  function DeinitFrees(s: seq<Slot>): seq<Event>
    requires |s| >= 1
  {
    LoopFrees(s, |s|) + BaseFrees(s[0])
  }

  function Unbind(s: Slot): Slot
  {
    s.(fprg := None, vprg := None)
  }

  function UnbindAll(s: seq<Slot>): (r: seq<Slot>)
    ensures |r| == |s| && forall i :: 0 <= i < |s| ==> r[i] == Unbind(s[i])
  {
    seq(|s|, i requires 0 <= i < |s| => Unbind(s[i]))
  }

  /** A slot `k` that holds a program of its own (not slot 0's). */
  ghost predicate OwnPixel(s: seq<Slot>, n: nat, x: Id)
    requires n <= |s|
  {
    exists k :: 1 <= k < n && s[k].fprg == Some(x) && s[k].fprg != s[0].fprg
  }

  ghost predicate OwnVertex(s: seq<Slot>, n: nat, x: Id)
    requires n <= |s|
  {
    exists k :: 1 <= k < n && s[k].vprg == Some(x) && s[k].vprg != s[0].vprg
  }

  /** The teardown loop frees exactly the user slots' own programs, and nothing else. */
  lemma {:induction false} LoopFreesExactly(s: seq<Slot>, n: nat)
    requires 1 <= n <= |s|
    ensures forall e :: e in LoopFrees(s, n) ==> e.FreePixel? || e.FreeVertex?
    ensures forall x: Id :: FreePixel(x) in LoopFrees(s, n) <==> OwnPixel(s, n, x)
    ensures forall x: Id :: FreeVertex(x) in LoopFrees(s, n) <==> OwnVertex(s, n, x)
  {
    if n > 1 {
      LoopFreesExactly(s, n - 1);
      forall x: Id ensures FreePixel(x) in LoopFrees(s, n) <==> OwnPixel(s, n, x) {
        if OwnPixel(s, n, x) {
          var k :| 1 <= k < n && s[k].fprg == Some(x) && s[k].fprg != s[0].fprg;
          if k < n - 1 { assert OwnPixel(s, n - 1, x); }
        }
        if FreePixel(x) in LoopFrees(s, n - 1) {
          var k :| 1 <= k < n - 1 && s[k].fprg == Some(x) && s[k].fprg != s[0].fprg;
          assert 1 <= k < n;
        }
      }
      forall x: Id ensures FreeVertex(x) in LoopFrees(s, n) <==> OwnVertex(s, n, x) {
        if OwnVertex(s, n, x) {
          var k :| 1 <= k < n && s[k].vprg == Some(x) && s[k].vprg != s[0].vprg;
          if k < n - 1 { assert OwnVertex(s, n - 1, x); }
        }
        if FreeVertex(x) in LoopFrees(s, n - 1) {
          var k :| 1 <= k < n - 1 && s[k].vprg == Some(x) && s[k].vprg != s[0].vprg;
          assert 1 <= k < n;
        }
      }
    }
  }

  /**
   * Teardown frees every program held anywhere in the table, and frees
   * nothing that the table does not hold.
   */
  lemma DeinitFreesAllHeld(s: seq<Slot>)
    requires |s| >= 1
    ensures forall e :: e in DeinitFrees(s) ==> e.FreePixel? || e.FreeVertex?
    ensures forall x: Id :: FreePixel(x) in DeinitFrees(s) <==> exists i :: 0 <= i < |s| && s[i].fprg == Some(x)
    ensures forall x: Id :: FreeVertex(x) in DeinitFrees(s) <==> exists i :: 0 <= i < |s| && s[i].vprg == Some(x)
  {
    LoopFreesExactly(s, |s|);
    forall x: Id | exists i :: 0 <= i < |s| && s[i].fprg == Some(x)
      ensures FreePixel(x) in DeinitFrees(s)
    {
      var i :| 0 <= i < |s| && s[i].fprg == Some(x);
      if s[i].fprg != s[0].fprg { assert OwnPixel(s, |s|, x); }
    }
    forall x: Id | exists i :: 0 <= i < |s| && s[i].vprg == Some(x)
      ensures FreeVertex(x) in DeinitFrees(s)
    {
      var i :| 0 <= i < |s| && s[i].vprg == Some(x);
      if s[i].vprg != s[0].vprg { assert OwnVertex(s, |s|, x); }
    }
  }

  /** Slot 0's programs are never freed by the loop, only at the end. */
  lemma BaseFreedLast(s: seq<Slot>)
    requires |s| >= 1
    ensures s[0].fprg.Some? ==> FreePixel(s[0].fprg.value) !in LoopFrees(s, |s|)
    ensures s[0].vprg.Some? ==> FreeVertex(s[0].vprg.value) !in LoopFrees(s, |s|)
  {
    LoopFreesExactly(s, |s|);
  }

  /** Under the aliasing rule the teardown loop frees no program twice. */
  lemma {:induction false} LoopFreesOnce(s: seq<Slot>, n: nat)
    requires AliasDiscipline(s) && 1 <= n <= |s|
    ensures NoDuplicates(LoopFrees(s, n))
  {
    if n > 1 {
      LoopFreesOnce(s, n - 1);
      LoopFreesExactly(s, n - 1);
      var prev := LoopFrees(s, n - 1);
      var last := SlotFrees(s[n - 1], s[0]);
      forall e | e in last ensures e !in prev {
        if e.FreePixel? {
          assert !OwnPixel(s, n - 1, e.id);
        } else {
          assert !OwnVertex(s, n - 1, e.id);
        }
      }
      assert NoDuplicates(last);
      NoDuplicatesAppend(prev, last);
    }
  }

  /**
   * No double free: under the aliasing rule (in particular after plain mode
   * copied slot 0 into slot 1) a teardown frees every program at most once.
   */
  lemma DeinitFreesOnce(s: seq<Slot>)
    requires AliasDiscipline(s)
    ensures NoDuplicates(DeinitFrees(s))
  {
    LoopFreesOnce(s, |s|);
    BaseFreedLast(s);
    var loop := LoopFrees(s, |s|);
    var base := BaseFrees(s[0]);
    assert NoDuplicates(base);
    NoDuplicatesAppend(loop, base);
  }

  /** The teardown loop over slots that hold no programs frees nothing. */
  lemma {:induction false} LoopFreesNothingHeld(s: seq<Slot>, n: nat)
    requires 1 <= n <= |s|
    requires forall i :: 0 <= i < |s| ==> s[i].fprg.None? && s[i].vprg.None?
    ensures LoopFrees(s, n) == []
  {
    if n > 1 {
      LoopFreesNothingHeld(s, n - 1);
    }
  }

  /** After a teardown every program handle is NULL, so a second teardown frees nothing. */
  lemma DeinitTwiceFreesNothing(s: seq<Slot>)
    requires |s| >= 1
    ensures DeinitFrees(UnbindAll(s)) == []
  {
    LoopFreesNothingHeld(UnbindAll(s), |s|);
  }

  // ---------------------------------------------------------------------
  // Per-frame pushes
  // ---------------------------------------------------------------------

  /** The frame context of one parameter push. */
  datatype FrameParams = FrameParams(
    width: nat, height: nat,
    texWidth: nat, texHeight: nat,
    outWidth: nat, outHeight: nat,
    frameCount: nat,
    reversed: bool)

  /**
   * The value written for each per-frame parameter. The frame push never
   * writes `ModelViewProj` (only `SetMvp` does, with the slot's cached
   * matrix), so its case here is unused and stands only to make the match total.
   */
  function ParamValue(p: Param, f: FrameParams): Value
  {
    match p
    case VideoSize => Vec2(f.width, f.height)
    case TextureSize => Vec2(f.texWidth, f.texHeight)
    case OutputSize => Vec2(f.outWidth, f.outHeight)
    case FrameCount => Scalar(f.frameCount)
    case FrameDirection => Scalar(if f.reversed then -1 else 1)
    case ModelViewProj => Mat(Identity)
  }

  /** One write, only when the handle is present. */
  function WriteIfPresent(st: Stage, table: Option<Id>, h: Option<Id>, p: Param, f: FrameParams): seq<Event>
  {
    if h.Some? then [SetParam(st, table, h.value, p, ParamValue(p, f))] else []
  }

  function StagePush(st: Stage, table: Option<Id>, h: StageHandles, f: FrameParams): seq<Event>
  {
    WriteIfPresent(st, table, h.videoSize, VideoSize, f) +
    WriteIfPresent(st, table, h.textureSize, TextureSize, f) +
    WriteIfPresent(st, table, h.outputSize, OutputSize, f) +
    WriteIfPresent(st, table, h.frameCount, FrameCount, f) +
    WriteIfPresent(st, table, h.frameDirection, FrameDirection, f)
  }

  /** Everything one parameter push sends for slot `s`. */
  function PushEvents(s: Slot, f: FrameParams): seq<Event>
  {
    [SetDefaults(s.fTable)] + [SetDefaults(s.vTable)] +
    StagePush(Fragment, s.fTable, s.fHandles, f) +
    StagePush(Vertex, s.vTable, s.vHandles, f)
  }

  lemma StagePushWrites(st: Stage, table: Option<Id>, h: StageHandles, f: FrameParams)
    ensures forall e :: e in StagePush(st, table, h, f) ==>
      e.SetParam? && e.stage == st && e.table == table && PerFrame(e.param) &&
      HandleOf(h, e.param) == Some(e.handle) && e.value == ParamValue(e.param, f)
    ensures forall p :: PerFrame(p) && HandleOf(h, p).Some? ==>
      SetParam(st, table, HandleOf(h, p).value, p, ParamValue(p, f)) in StagePush(st, table, h, f)
  {
  }

  /**
   * A push writes a parameter of a stage exactly when the slot holds a
   * handle for it; every write goes to the slot's own table and handle, with
   * that parameter's value.
   */
  lemma PushWritesExactlyPresent(s: Slot, f: FrameParams)
    ensures forall e :: e in PushEvents(s, f) && e.SetParam? ==>
      e.table == TableOf(s, e.stage) && HandleOf(HandlesOf(s, e.stage), e.param) == Some(e.handle) &&
      e.value == ParamValue(e.param, f)
    ensures forall st, p :: PerFrame(p) ==>
      ((exists e :: e in PushEvents(s, f) && e.SetParam? && e.stage == st && e.param == p) <==>
       HandleOf(HandlesOf(s, st), p).Some?)
  {
    var fPush, vPush := StagePush(Fragment, s.fTable, s.fHandles, f), StagePush(Vertex, s.vTable, s.vHandles, f);
    assert PushEvents(s, f) == [SetDefaults(s.fTable), SetDefaults(s.vTable)] + (fPush + vPush);
    StagePushWrites(Fragment, s.fTable, s.fHandles, f);
    StagePushWrites(Vertex, s.vTable, s.vHandles, f);
    forall e | e in PushEvents(s, f) && e.SetParam?
      ensures e in fPush + vPush
    {
    }
    forall st, p | PerFrame(p) && HandleOf(HandlesOf(s, st), p).Some?
      ensures exists e :: e in PushEvents(s, f) && e.SetParam? && e.stage == st && e.param == p
    {
      var e := SetParam(st, TableOf(s, st), HandleOf(HandlesOf(s, st), p).value, p, ParamValue(p, f));
      assert e in fPush + vPush;
    }
  }

  /** The frame direction is written as -1 exactly when the frame is reversed, and as 1 otherwise. */
  lemma FrameDirectionSign(s: Slot, f: FrameParams)
    ensures forall e :: e in PushEvents(s, f) && e.SetParam? && e.param == FrameDirection ==>
      (e.value == Scalar(-1) <==> f.reversed) && (e.value == Scalar(1) <==> !f.reversed)
  {
    PushWritesExactlyPresent(s, f);
  }

  /** A push for a slot that declares no parameters only resets the two tables. */
  lemma PushWithoutHandles(s: Slot, f: FrameParams)
    requires s.fHandles == NoHandles && s.vHandles == NoHandles
    ensures PushEvents(s, f) == [SetDefaults(s.fTable), SetDefaults(s.vTable)]
  {
  }

  // ---------------------------------------------------------------------
  // Preset and plain chains
  // ---------------------------------------------------------------------

  datatype Filter = FilterUnspec | FilterLinear | FilterNearest

  /** The framebuffer scale of a pass; its float factors are not modelled. */
  datatype FboScale = FboScale(valid: bool, typeX: nat, typeY: nat, absX: nat, absY: nat, fpFbo: bool, srgbFbo: bool)

  const NoScale := FboScale(false, 0, 0, 0, 0, false, false)

  datatype ShaderPass = ShaderPass(path: string, filter: Filter, fbo: FboScale)

  /** The parsed chain description (`struct video_shader`), as far as the backend reads it. */
  datatype VideoShader = VideoShader(passes: nat, pass: seq<ShaderPass>)

  /** The chain description of plain mode: one pass, naming the file when there is one. */
  function PlainShader(path: Option<string>): (sh: VideoShader)
    ensures sh.passes == 1 && |sh.pass| == 1
  {
    VideoShader(1, [ShaderPass(if path.Some? then path.value else "", FilterUnspec, NoScale)])
  }

  /** The verdicts for the first `n` passes of a preset. */
  function PassVerdicts(compiler: Source -> Verdict, preset: string, passes: seq<ShaderPass>, n: nat): (vs: seq<Verdict>)
    requires n <= |passes|
    ensures |vs| == n
    ensures forall i :: 0 <= i < n ==> vs[i] == compiler(PresetPass(preset, passes[i].path))
  {
    seq(n, i requires 0 <= i < n => compiler(PresetPass(preset, passes[i].path)))
  }

  /** The state a chain load leaves: the table, the chain description and the verdict. */
  datatype Chain = Chain(table: SlotTable, shader: Option<VideoShader>, ok: bool)

  /** Plain mode: the stock program into slot 0, then slot 1 from the file or as a copy of slot 0. */
  function LoadPlainSpec(t: SlotTable, sh: Option<VideoShader>, compiler: Source -> Verdict, path: Option<string>): Chain
    requires |t.slots| >= 2
  {
    var (t1, stockOk) := CompileAt(t, 0, compiler(Stock));
    if !stockOk then Chain(t1, sh, false)
    else
      var named := path.Some? && path.value != "";
      var shader := PlainShader(if named then path else None);
      if named then
        var (t2, ok) := CompileAt(t1, 1, compiler(PlainFile(path.value)));
        Chain(t2, Some(shader), ok)
      else
        Chain(SlotTable(t1.slots[1 := t1.slots[0]], t1.next), Some(shader), true)
  }

  /** Preset mode: the stock program into slot 0, then the capped passes into slots `1 ..`. */
  function LoadPresetSpec(t: SlotTable, sh: Option<VideoShader>, compiler: Source -> Verdict,
                          path: string, preset: Option<VideoShader>, maxShaders: nat): Chain
    requires maxShaders >= 3 && |t.slots| == maxShaders
    requires preset.Some? ==> preset.value.passes <= |preset.value.pass|
  {
    var (t1, stockOk) := CompileAt(t, 0, compiler(Stock));
    if !stockOk || preset.None? then Chain(t1, sh, false)
    else
      var shader := preset.value.(passes := CappedPasses(preset.value.passes, maxShaders));
      var (t2, ok) := LoadPasses(t1, PassVerdicts(compiler, path, shader.pass, shader.passes));
      Chain(t2, Some(shader), ok)
  }

  /**
   * Plain mode: the stock program goes into slot 0 first and a stock failure
   * touches no other slot; on success the chain has exactly one pass; with no
   * file, slot 1 is slot 0 (same program identities); with a file, slot 1 is
   * compiled from it and the load fails when that compile fails.
   */
  lemma LoadPlainFacts(t: SlotTable, sh: Option<VideoShader>, compiler: Source -> Verdict, path: Option<string>)
    requires |t.slots| >= 2
    ensures var c := LoadPlainSpec(t, sh, compiler, path);
      var stock := compiler(Stock);
      |c.table.slots| == |t.slots| &&
      (!(stock.fragmentOk && stock.vertexOk) ==>
        !c.ok && c.shader == sh && forall i :: 1 <= i < |t.slots| ==> c.table.slots[i] == t.slots[i]) &&
      (stock.fragmentOk && stock.vertexOk ==>
        Loaded(c.table.slots[0]) && c.shader.Some? && c.shader.value.passes == 1 &&
        (forall i :: 2 <= i < |t.slots| ==> c.table.slots[i] == t.slots[i]) &&
        (path.None? || path.value == "" ==> c.ok && c.table.slots[1] == c.table.slots[0]) &&
        (path.Some? && path.value != "" ==>
          (c.ok <==> compiler(PlainFile(path.value)).fragmentOk && compiler(PlainFile(path.value)).vertexOk) &&
          (c.ok ==> Loaded(c.table.slots[1]))))
  {
    var (t1, _) := CompileAt(t, 0, compiler(Stock));
    CompileAtFrame(t, 0, compiler(Stock));
    if path.Some? && path.value != "" {
      CompileAtFrame(t1, 1, compiler(PlainFile(path.value)));
    }
  }

  /**
   * Preset mode: a stock failure touches no other slot; otherwise the pass
   * count is capped at `maxShaders - 3` (and kept when below), the load
   * succeeds exactly when every retained pass compiles, and every pass before
   * the first failure is loaded in slot `i + 1`.
   */
  lemma LoadPresetFacts(t: SlotTable, sh: Option<VideoShader>, compiler: Source -> Verdict,
                        path: string, preset: Option<VideoShader>, maxShaders: nat)
    requires maxShaders >= 3 && |t.slots| == maxShaders
    requires preset.Some? ==> preset.value.passes <= |preset.value.pass|
    ensures var c := LoadPresetSpec(t, sh, compiler, path, preset, maxShaders);
      var stock := compiler(Stock);
      |c.table.slots| == |t.slots| &&
      (!(stock.fragmentOk && stock.vertexOk) ==>
        !c.ok && forall i :: 1 <= i < |t.slots| ==> c.table.slots[i] == t.slots[i]) &&
      (stock.fragmentOk && stock.vertexOk ==> Loaded(c.table.slots[0])) &&
      (preset.None? ==> !c.ok) &&
      (stock.fragmentOk && stock.vertexOk && preset.Some? ==>
        var declared := preset.value.passes;
        var n := c.shader.value.passes;
        c.shader.Some? && c.shader.value.pass == preset.value.pass &&
        (declared <= maxShaders - 3 ==> n == declared) &&
        (declared > maxShaders - 3 ==> n == maxShaders - 3) &&
        (c.ok <==> forall i :: 0 <= i < n ==>
           compiler(PresetPass(path, preset.value.pass[i].path)).fragmentOk &&
           compiler(PresetPass(path, preset.value.pass[i].path)).vertexOk) &&
        (forall k :: 1 <= k <= n && AllCompile(PassVerdicts(compiler, path, preset.value.pass, n)[..k]) ==>
           Loaded(c.table.slots[k])) &&
        (forall k :: n < k < |t.slots| ==> c.table.slots[k] == t.slots[k]))
  {
    var (t1, stockOk) := CompileAt(t, 0, compiler(Stock));
    CompileAtFrame(t, 0, compiler(Stock));
    if stockOk && preset.Some? {
      var n := CappedPasses(preset.value.passes, maxShaders);
      var vs := PassVerdicts(compiler, path, preset.value.pass, n);
      LoadPassesOk(t1, vs);
      LoadPassesFrame(t1, vs);
      forall k | 1 <= k <= n && AllCompile(vs[..k]) ensures Loaded(LoadPasses(t1, vs).0.slots[k]) {
        LoadPassesLoaded(t1, vs, k);
      }
    }
  }


  /**
   * How many times a preset load frees its configuration file. The file is
   * opened once the stock program compiles; a file that cannot be opened goes to the
   * error label with a null handle, an unparsed one with the handle set. A
   * parsed file is freed at once, and the error label frees it again when the
   * handle is still set. `clearAfterFree` says whether the handle is cleared
   * after that first free: the code as written does not clear it.
   */
  function PresetConfigFrees(t: SlotTable, sh: Option<VideoShader>, compiler: Source -> Verdict, path: string,
                             readable: bool, preset: Option<VideoShader>, maxShaders: nat, clearAfterFree: bool): nat
    requires maxShaders >= 3 && |t.slots| == maxShaders
    requires preset.Some? ==> readable && preset.value.passes <= |preset.value.pass|
  {
    var stockOk := CompileAt(t, 0, compiler(Stock)).1;
    if !stockOk || !readable then 0
    else if preset.None? then 1
    else
      var handleSet := !clearAfterFree;
      var failed := !LoadPresetSpec(t, sh, compiler, path, preset, maxShaders).ok;
      1 + (if failed && handleSet then 1 else 0)
  }

  /**
   * As written, a parsed preset whose pass fails to compile has its
   * configuration file freed twice, and that is the only way to get two frees.
   */
  lemma PresetConfigDoubleFree(t: SlotTable, sh: Option<VideoShader>, compiler: Source -> Verdict, path: string,
                               readable: bool, preset: Option<VideoShader>, maxShaders: nat)
    requires maxShaders >= 3 && |t.slots| == maxShaders
    requires preset.Some? ==> readable && preset.value.passes <= |preset.value.pass|
    ensures var stock := compiler(Stock);
      PresetConfigFrees(t, sh, compiler, path, readable, preset, maxShaders, false) == 2 <==>
        stock.fragmentOk && stock.vertexOk && preset.Some? &&
        exists i :: 0 <= i < CappedPasses(preset.value.passes, maxShaders) &&
          !(compiler(PresetPass(path, preset.value.pass[i].path)).fragmentOk &&
            compiler(PresetPass(path, preset.value.pass[i].path)).vertexOk)
  {
    LoadPresetFacts(t, sh, compiler, path, preset, maxShaders);
  }

  /** A concrete input: one preset pass whose vertex program does not compile. */
  lemma PresetConfigDoubleFreeExample()
    ensures PresetConfigFrees(SlotTable([EmptySlot, EmptySlot, EmptySlot, EmptySlot], 0), None,
                              (s: Source) => if s.Stock? then Verdict(true, true) else Verdict(true, false), "chain.cgp",
                              true, Some(VideoShader(1, [ShaderPass("pass0.cg", FilterUnspec, NoScale)])), 4, false) == 2
  {
    var compiler := (s: Source) => if s.Stock? then Verdict(true, true) else Verdict(true, false);
    var preset := Some(VideoShader(1, [ShaderPass("pass0.cg", FilterUnspec, NoScale)]));
    PresetConfigDoubleFree(SlotTable([EmptySlot, EmptySlot, EmptySlot, EmptySlot], 0), None, compiler, "chain.cgp",
                           true, preset, 4);
    assert !(compiler(PresetPass("chain.cgp", preset.value.pass[0].path)).vertexOk);
  }

  /**
   * With the handle cleared after the first free, the configuration file is
   * freed exactly once whenever it could be opened, and never otherwise.
   */
  lemma PresetConfigFreedOnce(t: SlotTable, sh: Option<VideoShader>, compiler: Source -> Verdict, path: string,
                              readable: bool, preset: Option<VideoShader>, maxShaders: nat)
    requires maxShaders >= 3 && |t.slots| == maxShaders
    requires preset.Some? ==> readable && preset.value.passes <= |preset.value.pass|
    ensures var frees := PresetConfigFrees(t, sh, compiler, path, readable, preset, maxShaders, true);
      var stock := compiler(Stock);
      frees <= 1 && (frees == 1 <==> stock.fragmentOk && stock.vertexOk && readable)
  {
  }
  /** The chain `hlsl_init` loads into a fresh table: a preset when the path names one, plain mode otherwise. */
  function InitChain(t: SlotTable, compiler: Source -> Verdict, path: Option<string>, isPreset: bool,
                     preset: Option<VideoShader>, maxShaders: nat): Chain
    requires maxShaders >= 3 && |t.slots| == maxShaders
    requires preset.Some? ==> preset.value.passes <= |preset.value.pass|
  {
    if path.Some? && isPreset then LoadPresetSpec(t, None, compiler, path.value, preset, maxShaders)
    else LoadPlainSpec(t, None, compiler, path)
  }

  /** Only the programs decide the aliasing rule. */
  lemma DisciplineOfPrograms(s: seq<Slot>, r: seq<Slot>)
    requires AliasDiscipline(s) && |r| == |s|
    requires forall i :: 0 <= i < |s| ==> r[i].fprg == s[i].fprg && r[i].vprg == s[i].vprg
    ensures AliasDiscipline(r)
  {
  }

  /**
   * A successful load into a zero-filled table leaves slot 0 and every
   * configured pass's slot loaded, at most `maxShaders - 3` preset passes
   * (exactly one in plain mode), and a table that obeys the aliasing rule.
   */
  lemma InitChainFacts(t: SlotTable, compiler: Source -> Verdict, path: Option<string>, isPreset: bool,
                       preset: Option<VideoShader>, maxShaders: nat)
    requires maxShaders >= 3 && |t.slots| == maxShaders
    requires preset.Some? ==> preset.value.passes <= |preset.value.pass|
    requires forall i :: 0 <= i < |t.slots| ==> t.slots[i] == EmptySlot
    ensures var c := InitChain(t, compiler, path, isPreset, preset, maxShaders);
      c.ok ==>
        c.shader.Some? && |c.table.slots| == maxShaders &&
        AliasDiscipline(c.table.slots) && IdsBelow(c.table.slots, c.table.next) &&
        (path.Some? && isPreset ==> c.shader.value.passes <= maxShaders - 3) &&
        (!(path.Some? && isPreset) ==> c.shader.value.passes == 1) &&
        forall k :: 0 <= k <= c.shader.value.passes ==> Loaded(c.table.slots[k])
  {
    var (t1, stockOk) := CompileAt(t, 0, compiler(Stock));
    CompileAtFrame(t, 0, compiler(Stock));
    if stockOk {
      NoUserProgramsDiscipline(t1.slots);
      assert IdsBelow(t1.slots, t1.next);
      if path.Some? && isPreset {
        if preset.Some? {
          var n := CappedPasses(preset.value.passes, maxShaders);
          var vs := PassVerdicts(compiler, path.value, preset.value.pass, n);
          LoadPassesKeepsDiscipline(t1, vs);
          LoadPassesOk(t1, vs);
          LoadPassesFrame(t1, vs);
          if LoadPasses(t1, vs).1 {
            forall k | 1 <= k <= n ensures Loaded(LoadPasses(t1, vs).0.slots[k]) {
              LoadPassesLoaded(t1, vs, k);
            }
          }
        }
      } else if path.Some? && path.value != "" {
        CompileKeepsDiscipline(t1, 1, compiler(PlainFile(path.value)));
        CompileAtFrame(t1, 1, compiler(PlainFile(path.value)));
      } else {
        AliasKeepsDiscipline(t1.slots);
      }
    }
  }

  // ---------------------------------------------------------------------
  // Filter query
  // ---------------------------------------------------------------------

  /** What a filter query reports: whether the pass specifies a filter, the smoothing, and the pass's filter afterwards. */
  datatype FilterAnswer = FilterAnswer(specified: bool, smooth: bool, after: Filter)

  /** The filter query as the backend writes it: any specified filter reads as linear and is rewritten to linear. */
  function FilterAsWritten(f: Filter): FilterAnswer
  {
    if f != FilterUnspec then FilterAnswer(true, true, FilterLinear) else FilterAnswer(false, false, f)
  }

  /** A pass asking for nearest filtering is reported as smooth and loses its setting. */
  lemma NearestReportedSmooth()
    ensures FilterAsWritten(FilterNearest).smooth
    ensures FilterAsWritten(FilterNearest).after != FilterNearest
  {
  }

  /** The filter query as intended: smoothing exactly for linear passes, the pass left as it was. */
  function FilterIntended(f: Filter): (a: FilterAnswer)
    ensures a.specified <==> f != FilterUnspec
    ensures a.specified ==> (a.smooth <==> f == FilterLinear)
    ensures a.after == f
  {
    FilterAnswer(f != FilterUnspec, f == FilterLinear, f)
  }
}
