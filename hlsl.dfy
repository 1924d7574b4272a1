/**
 * The HLSL shader-chain backend: a fixed array of pass slots, the index of
 * the active slot and the chain description, updated in place by the
 * backend's entry points. Every method is proved against the value-level
 * functions of `HlslSpec`, whose properties are proved there.
 */
module ShaderHlsl {
  import opened Common
  import opened HlslSpec

  /**
   * The Direct3D 9 device with the D3DX compiler behind it. What the
   * compiler answers for a source and what a constant table declares are
   * fixed when the device is made; every object it creates gets a fresh
   * identity, and every request the backend sends it is appended to `log`.
   */
  class Device {
    const compiler: Source -> Verdict
    const lookup: (Id, Param) -> Option<Id>
    var nextId: nat
    var log: seq<Event>

    constructor (compiler: Source -> Verdict, lookup: (Id, Param) -> Option<Id>)
      ensures this.compiler == compiler && this.lookup == lookup
      ensures nextId == 0 && log == []
    {
      this.compiler := compiler;
      this.lookup := lookup;
      nextId := 0;
      log := [];
    }

    /** Creates a device object (a shader or a constant table). */
    method Create() returns (id: Id)
      modifies this`nextId
      ensures id == old(nextId) && nextId == id + 1
    {
      id := nextId;
      nextId := nextId + 1;
    }

    /** Sends one request to the device. */
    method Send(e: Event)
      modifies this`log
      ensures log == old(log) + [e]
    {
      log := log + [e];
    }
  }

  /** The backend's state (`hlsl_shader_data_t`). */
  class HlslShaderData {
    const dev: Device
    /** `RARCH_HLSL_MAX_SHADERS`, the capacity of the slot table. */
    const maxShaders: nat
    const prg: array<Slot>
    var activeIdx: nat
    /** The chain description (`cg_shader`); `None` before a load allocates it. */
    var shader: Option<VideoShader>

    ghost predicate Valid()
      reads this, prg, dev
    {
      maxShaders >= 3 && prg.Length == maxShaders && activeIdx < maxShaders &&
      IdsBelow(prg[..], dev.nextId)
    }

    ghost function State(): SlotTable
      reads this, prg, dev
    {
      SlotTable(prg[..], dev.nextId)
    }

    /** A zero-filled backend state bound to `dev`, as `calloc` leaves it. */
    constructor (dev: Device, maxShaders: nat)
      requires maxShaders >= 3
      ensures Valid() && fresh(prg)
      ensures this.dev == dev && this.maxShaders == maxShaders
      ensures forall i :: 0 <= i < prg.Length ==> prg[i] == EmptySlot
      ensures activeIdx == 0 && shader == None
    {
      this.dev := dev;
      this.maxShaders := maxShaders;
      prg := new Slot[maxShaders](_ => EmptySlot);
      activeIdx := 0;
      shader := None;
    }

    /**
     * Compiles `src` into slot `idx`: the fragment stage first, then the
     * vertex stage, then the two shader objects.
     */
    method CompileProgram(idx: nat, src: Source) returns (ok: bool)
      requires Valid() && idx < prg.Length
      modifies prg, dev`nextId
      ensures Valid()
      ensures (State(), ok) == CompileAt(old(State()), idx, dev.compiler(src))
    {
      var verdict := dev.compiler(src);
      if !verdict.fragmentOk {
        assert prg[..][idx := prg[idx]] == prg[..];
        return false;
      }
      var fTable := dev.Create();
      if !verdict.vertexOk {
        prg[idx] := prg[idx].(fTable := Some(fTable));
        return false;
      }
      var vTable := dev.Create();
      var fprg := dev.Create();
      var vprg := dev.Create();
      prg[idx] := prg[idx].(fTable := Some(fTable), vTable := Some(vTable), fprg := Some(fprg), vprg := Some(vprg));
      return true;
    }

    /** Compiles the built-in passthrough program into slot 0. */
    method LoadStock() returns (ok: bool)
      requires Valid()
      modifies prg, dev`nextId
      ensures Valid()
      ensures (State(), ok) == CompileAt(old(State()), 0, dev.compiler(Stock))
    {
      ok := CompileProgram(0, Stock);
    }

    /** Resolves slot `i`'s parameter handles from its constant tables and resets its cached matrix. */
    method SetProgramAttributes(i: nat)
      requires Valid() && i < prg.Length
      modifies prg
      ensures Valid()
      ensures prg[..] == old(prg[..])[i := Resolve(old(prg[i]), dev.lookup)]
    {
      var program := prg[i];
      if program.fTable.Some? {
        var t := program.fTable.value;
        program := program.(fHandles := StageHandles(
          dev.lookup(t, VideoSize), dev.lookup(t, TextureSize), dev.lookup(t, OutputSize),
          dev.lookup(t, FrameCount), dev.lookup(t, FrameDirection)));
      }
      if program.vTable.Some? {
        var t := program.vTable.value;
        program := program.(vHandles := StageHandles(
          dev.lookup(t, VideoSize), dev.lookup(t, TextureSize), dev.lookup(t, OutputSize),
          dev.lookup(t, FrameCount), dev.lookup(t, FrameDirection)),
          mvp := dev.lookup(t, ModelViewProj));
      }
      program := program.(mvpVal := Identity);
      prg[i] := program;
    }

    /** Compiles preset pass `i` into slot `i + 1`. */
    method LoadShader(path: string, i: nat) returns (ok: bool)
      requires Valid() && shader.Some? && i < |shader.value.pass| && i + 1 < prg.Length
      modifies prg, dev`nextId
      ensures Valid()
      ensures (State(), ok) == CompileAt(old(State()), i + 1, dev.compiler(PresetPass(path, shader.value.pass[i].path)))
    {
      ok := CompileProgram(i + 1, PresetPass(path, shader.value.pass[i].path));
    }

    /** Plain mode: the stock program, then slot 1 from `path`, or a copy of slot 0 when there is no path. */
    method LoadPlain(path: Option<string>) returns (ok: bool)
      requires Valid()
      modifies this`shader, prg, dev`nextId
      ensures Valid() && activeIdx == old(activeIdx)
      ensures Chain(State(), shader, ok) == LoadPlainSpec(old(State()), old(shader), dev.compiler, path)
    {
      ok := LoadStock();
      if !ok {
        return;
      }
      var named := path.Some? && path.value != "";
      shader := Some(PlainShader(if named then path else None));
      if named {
        ok := CompileProgram(1, PlainFile(path.value));
      } else {
        prg[1] := prg[0];
        ok := true;
      }
    }

    /**
     * Releases the programs: user slots first, skipping a program that is
     * slot 0's, then slot 0's; every program handle ends NULL.
     */
    method DeinitProgs()
      requires Valid()
      modifies prg, dev`log
      ensures Valid() && activeIdx == old(activeIdx)
      ensures dev.log == old(dev.log) + DeinitFrees(old(prg[..]))
      ensures AliasDiscipline(old(prg[..])) ==> NoDuplicates(dev.log[|old(dev.log)|..])
      ensures prg[..] == UnbindAll(old(prg[..]))
    {
      ghost var before := prg[..];
      var i := 1;
      while i < maxShaders
        invariant 1 <= i <= maxShaders
        invariant prg[0] == before[0]
        invariant forall k :: 1 <= k < i ==> prg[k] == Unbind(before[k])
        invariant forall k :: i <= k < maxShaders ==> prg[k] == before[k]
        invariant dev.log == old(dev.log) + LoopFrees(before, i)
      {
        ReleaseSlot(i);
        i := i + 1;
      }
      ReleaseBase();
      assert dev.log[|old(dev.log)|..] == DeinitFrees(before);
      if AliasDiscipline(before) {
        DeinitFreesOnce(before);
      }
    }

    /** Releases user slot `i`'s own programs (not slot 0's) and clears its program handles. */
    method ReleaseSlot(i: nat)
      requires Valid() && 1 <= i < prg.Length
      modifies prg, dev`log
      ensures Valid()
      ensures dev.log == old(dev.log) + SlotFrees(old(prg[i]), prg[0])
      ensures prg[..] == old(prg[..])[i := Unbind(old(prg[i]))]
    {
      if prg[i].fprg.Some? && prg[i].fprg != prg[0].fprg {
        dev.Send(FreePixel(prg[i].fprg.value));
      }
      if prg[i].vprg.Some? && prg[i].vprg != prg[0].vprg {
        dev.Send(FreeVertex(prg[i].vprg.value));
      }
      prg[i] := prg[i].(fprg := None, vprg := None);
    }

    /** Releases slot 0's programs and clears its program handles. */
    method ReleaseBase()
      requires Valid()
      modifies prg, dev`log
      ensures Valid()
      ensures dev.log == old(dev.log) + BaseFrees(old(prg[0]))
      ensures prg[..] == old(prg[..])[0 := Unbind(old(prg[0]))]
    {
      if prg[0].fprg.Some? {
        dev.Send(FreePixel(prg[0].fprg.value));
      }
      if prg[0].vprg.Some? {
        dev.Send(FreeVertex(prg[0].vprg.value));
      }
      prg[0] := prg[0].(fprg := None, vprg := None);
    }

    /**
     * Preset mode: the stock program, then the preset's passes (capped at
     * `maxShaders - 3`), pass `i` into slot `i + 1`, stopping at the first
     * failure. `readable` says whether the preset file opens and `preset` is
     * `None` when it cannot be opened or parsed. `configFrees` counts the
     * frees of the configuration file; its handle is cleared once it is freed,
     * so the error path does not free it again.
     */
    method LoadPreset(path: string, readable: bool, preset: Option<VideoShader>) returns (ok: bool, configFrees: nat)
      requires Valid()
      requires preset.Some? ==> readable && preset.value.passes <= |preset.value.pass|
      modifies this`shader, prg, dev`nextId
      ensures Valid() && activeIdx == old(activeIdx)
      ensures Chain(State(), shader, ok) == LoadPresetSpec(old(State()), old(shader), dev.compiler, path, preset, maxShaders)
      ensures configFrees == PresetConfigFrees(old(State()), old(shader), dev.compiler, path, readable, preset, maxShaders, true)
    {
      configFrees := 0;
      ok := LoadStock();
      if !ok {
        return;
      }
      var conf := readable;
      if !conf || preset.None? {
        if conf {
          configFrees := configFrees + 1;
        }
        return false, configFrees;
      }
      // The parsed file is freed here and its handle cleared, so a failing
      // pass below reaches the error label with nothing left to free.
      configFrees := configFrees + 1;
      var sh := preset.value;
      if sh.passes > maxShaders - 3 {
        sh := sh.(passes := maxShaders - 3);
      }
      shader := Some(sh);
      ok := LoadPassList(path);
    }

    /** Compiles the configured passes in order, pass `i` into slot `i + 1`, stopping at the first failure. */
    method LoadPassList(path: string) returns (ok: bool)
      requires Valid() && shader.Some?
      requires shader.value.passes <= |shader.value.pass| && shader.value.passes < prg.Length
      modifies prg, dev`nextId
      ensures Valid()
      ensures (State(), ok) == LoadPasses(old(State()), PassVerdicts(dev.compiler, path, shader.value.pass, shader.value.passes))
    {
      ghost var vs := PassVerdicts(dev.compiler, path, shader.value.pass, shader.value.passes);
      var i := 0;
      while i < shader.value.passes
        invariant 0 <= i <= shader.value.passes
        invariant Valid()
        invariant (State(), true) == LoadPasses(old(State()), vs[..i])
      {
        ok := LoadShader(path, i);
        assert vs[..i + 1][..i] == vs[..i];
        if !ok {
          LoadPassesStuck(old(State()), vs, i + 1);
          return;
        }
        i := i + 1;
      }
      assert vs[..i] == vs;
      ok := true;
    }

    /**
     * `hlsl_init`: loads the chain (a preset when `path` names one, plain
     * mode otherwise), resolves the handles of slots `1 ..= passes` and binds
     * slot 1. On failure the state is dropped without releasing anything.
     * `readable` and `preset` are what opening and parsing a preset file give.
     */
    static method Init(dev: Device?, maxShaders: nat, path: Option<string>, isPreset: bool, readable: bool,
                       preset: Option<VideoShader>)
      returns (h: HlslShaderData?)
      requires maxShaders >= 3
      requires preset.Some? ==> readable && preset.value.passes <= |preset.value.pass|
      modifies dev
      ensures dev == null ==> h == null
      ensures h == null && dev != null ==> dev.log == old(dev.log)
      ensures h != null ==>
        fresh(h) && fresh(h.prg) && h.dev == dev && h.maxShaders == maxShaders &&
        h.Valid() && h.activeIdx == 0 && h.shader.Some? &&
        var c := InitChain(SlotTable(seq(maxShaders, _ => EmptySlot), old(dev.nextId)),
                           dev.compiler, path, isPreset, preset, maxShaders);
        c.ok && h.shader == c.shader && dev.nextId == c.table.next &&
        h.prg[..] == ResolveRange(c.table.slots, 1, c.shader.value.passes, dev.lookup) &&
        dev.log == old(dev.log) + [BindVertex(1, h.prg[1].vprg), BindPixel(h.prg[1].fprg)]
      ensures h != null ==>
        AliasDiscipline(h.prg[..]) &&
        (path.Some? && isPreset ==> h.shader.value.passes <= maxShaders - 3) &&
        (!(path.Some? && isPreset) ==> h.shader.value.passes == 1) &&
        forall k :: 0 <= k <= h.shader.value.passes ==> Loaded(h.prg[k])
    {
      if dev == null {
        return null;
      }
      h := new HlslShaderData(dev, maxShaders);
      assert h.State() == SlotTable(seq(maxShaders, _ => EmptySlot), old(dev.nextId));
      var ok := h.Setup(path, isPreset, readable, preset);
      if !ok {
        return null;
      }
    }

    /** The body of `hlsl_init` on a zero-filled state: load, resolve slots `1 ..= passes`, bind slot 1. */
    method Setup(path: Option<string>, isPreset: bool, readable: bool, preset: Option<VideoShader>) returns (ok: bool)
      requires Valid() && shader.None? && activeIdx == 0
      requires forall i :: 0 <= i < prg.Length ==> prg[i] == EmptySlot
      requires preset.Some? ==> readable && preset.value.passes <= |preset.value.pass|
      modifies this`shader, prg, dev`nextId, dev`log
      ensures Valid() && activeIdx == 0
      ensures !ok ==> dev.log == old(dev.log)
      ensures ok ==>
        var c := InitChain(old(State()), dev.compiler, path, isPreset, preset, maxShaders);
        c.ok && shader.Some? && shader == c.shader && dev.nextId == c.table.next &&
        prg[..] == ResolveRange(c.table.slots, 1, c.shader.value.passes, dev.lookup) &&
        dev.log == old(dev.log) + [BindVertex(1, prg[1].vprg), BindPixel(prg[1].fprg)]
      ensures ok ==>
        AliasDiscipline(prg[..]) &&
        (path.Some? && isPreset ==> shader.value.passes <= maxShaders - 3) &&
        (!(path.Some? && isPreset) ==> shader.value.passes == 1) &&
        forall k :: 0 <= k <= shader.value.passes ==> Loaded(prg[k])
    {
      InitChainFacts(State(), dev.compiler, path, isPreset, preset, maxShaders);
      ok := LoadChain(path, isPreset, readable, preset);
      if !ok {
        return;
      }
      ghost var loaded := prg[..];
      SetAttributesUpTo(shader.value.passes);
      DisciplineOfPrograms(loaded, prg[..]);
      dev.Send(BindVertex(1, prg[1].vprg));
      dev.Send(BindPixel(prg[1].fprg));
    }

    /** Loads the chain into a fresh state: a preset when `path` names one, plain mode otherwise. */
    method LoadChain(path: Option<string>, isPreset: bool, readable: bool, preset: Option<VideoShader>) returns (ok: bool)
      requires Valid() && shader.None?
      requires preset.Some? ==> readable && preset.value.passes <= |preset.value.pass|
      modifies this`shader, prg, dev`nextId
      ensures Valid() && activeIdx == old(activeIdx)
      ensures Chain(State(), shader, ok) == InitChain(old(State()), dev.compiler, path, isPreset, preset, maxShaders)
    {
      if path.Some? && isPreset {
        var configFrees;
        ok, configFrees := LoadPreset(path.value, readable, preset);
      } else {
        ok := LoadPlain(path);
      }
    }

    /** Resolves the handles of slots `1 ..= passes`. */
    method SetAttributesUpTo(passes: nat)
      requires Valid() && passes < prg.Length
      modifies prg
      ensures Valid()
      ensures prg[..] == ResolveRange(old(prg[..]), 1, passes, dev.lookup)
    {
      var i := 1;
      while i <= passes
        invariant 1 <= i <= passes + 1
        invariant Valid()
        invariant prg[..] == ResolveRange(old(prg[..]), 1, i - 1, dev.lookup)
      {
        SetProgramAttributes(i);
        i := i + 1;
      }
    }

    /** Releases the programs, zeroes the slot table and drops the chain description. */
    method Deinit()
      requires Valid()
      modifies this`shader, prg, dev`log
      ensures Valid() && activeIdx == old(activeIdx)
      ensures dev.log == old(dev.log) + DeinitFrees(old(prg[..]))
      ensures AliasDiscipline(old(prg[..])) ==> NoDuplicates(dev.log[|old(dev.log)|..])
      ensures forall i :: 0 <= i < prg.Length ==> prg[i] == EmptySlot
      ensures shader == None
    {
      DeinitProgs();
      forall i | 0 <= i < prg.Length {
        prg[i] := EmptySlot;
      }
      shader := None;
    }

    /**
     * Binds slot `idx` when it holds both programs, and then makes it the
     * active slot if `setActive`; a slot missing a program is ignored.
     */
    method Use(idx: nat, setActive: bool)
      requires Valid() && idx < prg.Length
      modifies this`activeIdx, dev`log
      ensures Valid()
      ensures Loaded(prg[idx]) ==>
        activeIdx == (if setActive then idx else old(activeIdx)) &&
        dev.log == old(dev.log) + [BindVertex(idx, prg[idx].vprg), BindPixel(prg[idx].fprg)]
      ensures !Loaded(prg[idx]) ==> activeIdx == old(activeIdx) && dev.log == old(dev.log)
    {
      var program := prg[idx];
      if program.vprg.None? || program.fprg.None? {
        return;
      }
      if setActive {
        activeIdx := idx;
      }
      dev.Send(BindVertex(idx, program.vprg));
      dev.Send(BindPixel(program.fprg));
    }

    /** Writes parameter `p` through handle `h` when the program declares it. */
    method PushIfPresent(st: Stage, table: Option<Id>, h: Option<Id>, p: Param, f: FrameParams)
      modifies dev`log
      ensures dev.log == old(dev.log) + WriteIfPresent(st, table, h, p, f)
    {
      if h.Some? {
        dev.Send(SetParam(st, table, h.value, p, ParamValue(p, f)));
      }
    }

    /** The writes of one stage: each present handle gets its parameter's value. */
    method PushStage(st: Stage, table: Option<Id>, h: StageHandles, f: FrameParams)
      modifies dev`log
      ensures dev.log == old(dev.log) + StagePush(st, table, h, f)
    {
      PushIfPresent(st, table, h.videoSize, VideoSize, f);
      PushIfPresent(st, table, h.textureSize, TextureSize, f);
      PushIfPresent(st, table, h.outputSize, OutputSize, f);
      PushIfPresent(st, table, h.frameCount, FrameCount, f);
      PushIfPresent(st, table, h.frameDirection, FrameDirection, f);
    }

    /**
     * The per-frame push into the active slot: both tables reset to their
     * defaults, then each present handle of the fragment and then the vertex
     * stage gets its value.
     */
    method SetParams(f: FrameParams)
      requires Valid()
      modifies dev`log
      ensures dev.log == old(dev.log) + PushEvents(prg[activeIdx], f)
    {
      var program := prg[activeIdx];
      dev.Send(SetDefaults(program.fTable));
      dev.Send(SetDefaults(program.vTable));
      PushStage(Fragment, program.fTable, program.fHandles, f);
      PushStage(Vertex, program.vTable, program.vHandles, f);
      assert dev.log == old(dev.log) + ([SetDefaults(program.fTable)] + [SetDefaults(program.vTable)] +
        StagePush(Fragment, program.fTable, program.fHandles, f) + StagePush(Vertex, program.vTable, program.vHandles, f));
    }

    /** Caches `matrix` in the active slot; a NULL matrix is ignored. */
    method SetProjMatrix(matrix: Option<Matrix>)
      requires Valid()
      modifies prg
      ensures Valid()
      ensures matrix.Some? ==> prg[..] == old(prg[..])[activeIdx := old(prg[activeIdx]).(mvpVal := matrix.value)]
      ensures matrix.None? ==> prg[..] == old(prg[..])
    {
      if matrix.Some? {
        prg[activeIdx] := prg[activeIdx].(mvpVal := matrix.value);
      }
    }

    /**
     * Pushes the active slot's cached matrix through its projection handle;
     * the matrix passed in is not used. Fails when the slot has no handle.
     */
    method SetMvp(matrix: Option<Matrix>) returns (ok: bool)
      requires Valid()
      modifies dev`log
      ensures ok <==> prg[activeIdx].mvp.Some?
      ensures ok ==> dev.log == old(dev.log) + [SetParam(Vertex, prg[activeIdx].vTable, prg[activeIdx].mvp.value,
                                                         ModelViewProj, Mat(prg[activeIdx].mvpVal))]
      ensures !ok ==> dev.log == old(dev.log)
    {
      var program := prg[activeIdx];
      if program.mvp.None? {
        return false;
      }
      dev.Send(SetParam(Vertex, program.vTable, program.mvp.value, ModelViewProj, Mat(program.mvpVal)));
      return true;
    }

    /** The number of configured passes. */
    method Num() returns (n: nat)
      requires shader.Some?
      ensures n == shader.value.passes
    {
      n := shader.value.passes;
    }

    /**
     * The filter query for pass `idx - 1`: nothing for index 0 or an
     * unspecified filter; otherwise the pass's filter is reported, smoothing
     * exactly for a linear pass. This is the corrected query (`FilterIntended`);
     * the shipped code also reports nearest passes as smooth (`FilterAsWritten`).
     */
    method FilterType(idx: nat, smoothIn: bool) returns (specified: bool, smooth: bool)
      requires shader.Some? && (idx > 0 ==> idx - 1 < |shader.value.pass|)
      ensures idx == 0 ==> !specified && smooth == smoothIn
      ensures idx > 0 ==>
        var a := FilterIntended(shader.value.pass[idx - 1].filter);
        specified == a.specified && smooth == (if a.specified then a.smooth else smoothIn)
    {
      specified, smooth := false, smoothIn;
      if idx > 0 {
        var f := shader.value.pass[idx - 1].filter;
        if f != FilterUnspec {
          specified, smooth := true, f == FilterLinear;
        }
      }
    }

    /** The framebuffer scale of pass `idx - 1`; for index 0 only the validity flag is cleared. */
    method ShaderScale(idx: nat, scaleIn: FboScale) returns (scale: FboScale)
      requires shader.Some? && (idx > 0 ==> idx - 1 < |shader.value.pass|)
      ensures idx == 0 ==> !scale.valid && scale == scaleIn.(valid := false)
      ensures idx > 0 ==> scale == shader.value.pass[idx - 1].fbo
    {
      if idx > 0 {
        scale := shader.value.pass[idx - 1].fbo;
      } else {
        scale := scaleIn.(valid := false);
      }
    }
  }
}
