# RetroArch HLSL shader backend and menu display-list builders, modelled in Dafny

This project models two parts of RetroArch.

**The Direct3D 9 HLSL shader backend** (`gfx/drivers_shader/shader_hlsl.c`).
The backend owns a fixed array of `RARCH_HLSL_MAX_SHADERS` program slots:
- Slot 0 holds the stock shader.
- Slots 1 to `passes` hold the passes of a plain shader file or of a preset.
- The slots past the last pass are spare.

The backend does these things:
- It compiles vertex and pixel programs into those slots.
- It resolves the uniform handles of each loaded pass.
- It binds a slot's programs when a pass is used.
- It pushes per-frame parameters and the model-view-projection matrix to the device.
- It frees the programs again on teardown.

The model works as follows:
- The backend is the class `ShaderHlsl.HlslShaderData`, with its slots in an `array<Slot>`.
- The Direct3D device is the class `ShaderHlsl.Device`:
  - it hands out fresh object identities;
  - it records every call that has an effect (bind, free, parameter write) in a `log`;
  - it answers compilation and constant-table lookups through two functions fixed at creation.
- Module `HlslSpec` holds the value-level specification that the methods are proved against, and the properties proved about it:
  - which objects a teardown frees, and that none is freed twice;
  - what a chain of pass compilations leaves behind;
  - which parameter writes a frame produces.

**Four builders of `menu/menu_displaylist.c`.** Each appends entries to a menu list, modelled as the class `MenuList.Menu`:
- the line splitter for text buffers, `print_buf_lines` and `print_buf_lines_extended`;
- the settings scan, `menu_displaylist_parse_settings_internal`;
- the input-descriptor loop of the remapping page;
- the playlist-associations page.

It also covers the three byte-unit helpers of the system-information page.

- The line splitter works in place on an `array<char>`. It is proved against a pure split of the buffer, `MenuLines.LinesOf`, which has a round trip back to the text.
- The other builders are loops that append to the list. Each is proved to append exactly the entries that a reference function computes from its inputs. Lemmas then state what those entries are:
  - membership in both directions;
  - counts;
  - order;
  - the last-wins and read-back behaviour of the playlist association lists.

## Model

| member | source | states |
|---|---|---|
| ShaderHlsl.Device.Create | gfx/drivers_shader/shader_hlsl.c:251-252 | every object the device creates gets an identity never handed out before |
| ShaderHlsl.Device.Send | gfx/drivers_shader/shader_hlsl.c:535-536 | a device call is appended to the device's record and nothing else changes |
| ShaderHlsl.HlslShaderData.constructor | gfx/drivers_shader/shader_hlsl.c:458-464 | a fresh backend has every slot empty, pass 0 active and no shader description |
| HlslSpec.Compile | gfx/drivers_shader/shader_hlsl.c:204-268 | compiling succeeds iff both programs compile. A pixel-program failure leaves the slot untouched. A vertex failure changes only the slot's pixel constant table, to the fresh one. On success the slot holds two fresh programs and their tables, and nothing else of the slot changes |
| HlslSpec.CompileAtFrame | gfx/drivers_shader/shader_hlsl.c:204-268 | compiling into slot k changes no other slot and never reuses identities; success leaves slot k loaded |
| HlslSpec.CompileKeepsDiscipline | gfx/drivers_shader/shader_hlsl.c:204-268 | compiling into a pass slot keeps every program owned by at most one slot other than the stock alias, and keeps all identities below the next free one |
| ShaderHlsl.HlslShaderData.CompileProgram | gfx/drivers_shader/shader_hlsl.c:204-268 | the new slot table and the success flag are exactly those of compiling the source's verdict into that slot |
| ShaderHlsl.HlslShaderData.LoadStock | gfx/drivers_shader/shader_hlsl.c:270-284 | the stock shader is compiled into slot 0 and the result reported |
| HlslSpec.ResolveHandles | gfx/drivers_shader/shader_hlsl.c:286-317 | resolving a slot looks each per-frame uniform up in that stage's constant table when the table exists, keeps the old handle when it does not, resets the cached matrix to identity and changes no program |
| ShaderHlsl.HlslShaderData.SetProgramAttributes | gfx/drivers_shader/shader_hlsl.c:286-317 | only slot i changes, and it becomes its resolved form |
| ShaderHlsl.HlslShaderData.LoadShader | gfx/drivers_shader/shader_hlsl.c:319-339 | pass i of the description is compiled, from its path resolved against the preset, into slot i + 1 |
| HlslSpec.PlainShader | gfx/drivers_shader/shader_hlsl.c:346-351 | a plain shader description has exactly one pass |
| HlslSpec.LoadPlainFacts | gfx/drivers_shader/shader_hlsl.c:341-375 | loading a plain shader fails, keeping the old description and pass slots, when the stock shader fails. Otherwise slot 0 is loaded with a one-pass description. With no path, or an empty one, slot 1 aliases slot 0 and the load succeeds. With a path, it succeeds iff that file compiles, leaving slot 1 loaded. Slots from 2 up never change |
| ShaderHlsl.HlslShaderData.LoadPlain | gfx/drivers_shader/shader_hlsl.c:341-375 | the slots, the description and the result are those of the plain-load specification |
| HlslSpec.UnbindAll | gfx/drivers_shader/shader_hlsl.c:377-399 | teardown leaves every slot without programs |
| HlslSpec.LoopFreesExactly | gfx/drivers_shader/shader_hlsl.c:381-390 | the per-slot loop frees exactly the programs held by slots 1..n-1 that are not the stock shader's own, and nothing else |
| HlslSpec.DeinitFreesAllHeld | gfx/drivers_shader/shader_hlsl.c:377-399 | a teardown frees exactly the programs held by some slot, each kind from its own slot set |
| HlslSpec.BaseFreedLast | gfx/drivers_shader/shader_hlsl.c:381-398 | the stock programs are never freed by the per-slot loop, only by the final release of slot 0 |
| HlslSpec.LoopFreesOnce | gfx/drivers_shader/shader_hlsl.c:381-390 | under the aliasing discipline the per-slot loop frees no program twice |
| HlslSpec.DeinitFreesOnce | gfx/drivers_shader/shader_hlsl.c:377-399 | under the aliasing discipline a whole teardown frees no program twice |
| HlslSpec.LoopFreesNothingHeld | gfx/drivers_shader/shader_hlsl.c:381-390 | with no programs held, the loop frees nothing |
| HlslSpec.DeinitTwiceFreesNothing | gfx/drivers_shader/shader_hlsl.c:377-399 | a second teardown after a first frees nothing |
| HlslSpec.NoUserProgramsDiscipline | gfx/drivers_shader/shader_hlsl.c:458-459 | a table in which no pass slot holds programs satisfies the aliasing discipline |
| HlslSpec.AliasKeepsDiscipline | gfx/drivers_shader/shader_hlsl.c:368-372 | copying the stock slot into slot 1 keeps the aliasing discipline |
| ShaderHlsl.HlslShaderData.DeinitProgs | gfx/drivers_shader/shader_hlsl.c:377-399 | the device receives exactly the frees of the teardown specification, none twice when the slots keep the aliasing discipline, and every slot loses its programs |
| ShaderHlsl.HlslShaderData.ReleaseSlot | gfx/drivers_shader/shader_hlsl.c:383-389 | one pass slot frees the programs it does not share with slot 0 and drops them |
| ShaderHlsl.HlslShaderData.ReleaseBase | gfx/drivers_shader/shader_hlsl.c:392-398 | slot 0 frees its own programs and drops them |
| HlslSpec.CappedPasses | gfx/drivers_shader/shader_hlsl.c:429-434 | the number of preset passes loaded is the declared number, cut to the maximum minus 3, and never more than either |
| HlslSpec.PassVerdicts | gfx/drivers_shader/shader_hlsl.c:319-339 | pass i is compiled from its own path resolved against the preset path |
| HlslSpec.LoadPassesOk | gfx/drivers_shader/shader_hlsl.c:436-443 | loading the passes succeeds iff every pass compiles |
| HlslSpec.LoadPassesFrame | gfx/drivers_shader/shader_hlsl.c:436-440 | loading the passes changes neither slot 0 nor any slot past the last pass |
| HlslSpec.LoadPassesLoaded | gfx/drivers_shader/shader_hlsl.c:436-440 | every pass up to and including the last one that compiled in an unbroken run is left loaded |
| HlslSpec.LoadPassesIds | gfx/drivers_shader/shader_hlsl.c:436-440 | when all passes compile, pass k's programs have the identities created for it in order, and four identities are used per pass |
| HlslSpec.LoadPassesKeepsDiscipline | gfx/drivers_shader/shader_hlsl.c:436-440 | loading passes keeps the aliasing discipline and the identity bound |
| HlslSpec.LoadPassesStuck | gfx/drivers_shader/shader_hlsl.c:436-440 | after the first failing pass, the later passes are not attempted |
| ShaderHlsl.HlslShaderData.LoadPassList | gfx/drivers_shader/shader_hlsl.c:436-443 | the slots and the result are those of loading the preset's pass verdicts in order |
| HlslSpec.LoadPresetFacts | gfx/drivers_shader/shader_hlsl.c:401-452 | a stock failure fails the load and changes no pass slot. An unreadable preset fails. Otherwise the description is the preset's, with its pass count capped. The load succeeds iff every loaded pass compiles, the passes that compiled are loaded, and the slots past the last pass are untouched |
| ShaderHlsl.HlslShaderData.LoadPreset | gfx/drivers_shader/shader_hlsl.c:401-452 | the slots, the description and the result are those of the preset-load specification, and the configuration file is freed exactly as the corrected free count says: once if it was opened, never twice |
| HlslSpec.PresetConfigDoubleFree | gfx/drivers_shader/shader_hlsl.c:427-448 | as written, the configuration file is freed twice exactly when the stock program compiles, the preset parses and some loaded pass fails to compile |
| HlslSpec.PresetConfigDoubleFreeExample | gfx/drivers_shader/shader_hlsl.c:427-448 | a readable one-pass preset whose pass has a vertex program that does not compile gets its configuration file freed twice |
| HlslSpec.PresetConfigFreedOnce | gfx/drivers_shader/shader_hlsl.c:410-448 | with the handle cleared after the first free, the configuration file is freed at most once, and exactly once iff the stock program compiled and the file was opened |
| HlslSpec.InitChainFacts | gfx/drivers_shader/shader_hlsl.c:454-497 | a successful initialisation keeps the aliasing discipline and leaves slots 0 to `passes` loaded. A preset gets at most the maximum minus 3 passes; a plain shader gets one |
| HlslSpec.DisciplineOfPrograms | gfx/drivers_shader/shader_hlsl.c:483-484 | resolving handles, which changes no program, keeps the aliasing discipline |
| HlslSpec.ResolveRange | gfx/drivers_shader/shader_hlsl.c:483-484 | the handles of slots 1 to `passes` are resolved, and slot 0 and the spare slots are untouched |
| ShaderHlsl.HlslShaderData.SetAttributesUpTo | gfx/drivers_shader/shader_hlsl.c:483-484 | the slots become their resolved-range form |
| ShaderHlsl.HlslShaderData.LoadChain | gfx/drivers_shader/shader_hlsl.c:469-478 | a path with a preset extension loads a preset, and anything else loads a plain shader |
| ShaderHlsl.HlslShaderData.Setup | gfx/drivers_shader/shader_hlsl.c:469-491 | a failed setup makes no device call. A successful one resolves slots 1 to `passes` and binds slot 1. Its slots keep the discipline and are loaded |
| ShaderHlsl.HlslShaderData.Init | gfx/drivers_shader/shader_hlsl.c:454-497 | no device gives no backend. A failed load gives no backend and no device call. Success gives a fresh backend with the specified description, resolved slots and discipline, and slot 1 bound |
| ShaderHlsl.HlslShaderData.Deinit | gfx/drivers_shader/shader_hlsl.c:499-515 | a backend teardown frees exactly the specified programs, none twice when the slots keep the aliasing discipline; it clears every slot and drops the shader description |
| ShaderHlsl.HlslShaderData.Use | gfx/drivers_shader/shader_hlsl.c:517-537 | a loaded slot is bound (vertex, then pixel) and becomes active when asked. An unloaded slot changes nothing |
| HlslSpec.StagePushWrites | gfx/drivers_shader/shader_hlsl.c:169-199 | each write of a stage goes to a handle the stage has, with that parameter's value, and every present per-frame handle is written |
| HlslSpec.PushWritesExactlyPresent | gfx/drivers_shader/shader_hlsl.c:126-202 | a frame writes parameter p of a stage iff that stage has a handle for p, through that stage's table, with p's value |
| HlslSpec.FrameDirectionSign | gfx/drivers_shader/shader_hlsl.c:180-183 | the frame direction written is -1 exactly when playing in reverse and 1 otherwise |
| HlslSpec.PushWithoutHandles | gfx/drivers_shader/shader_hlsl.c:166-167 | a slot without handles only has its tables reset to defaults |
| ShaderHlsl.HlslShaderData.PushIfPresent | gfx/drivers_shader/shader_hlsl.c:169-170 | one uniform write happens only when its handle is present |
| ShaderHlsl.HlslShaderData.PushStage | gfx/drivers_shader/shader_hlsl.c:166-199 | the device receives the specified writes of one stage |
| ShaderHlsl.HlslShaderData.SetParams | gfx/drivers_shader/shader_hlsl.c:126-202 | the device receives exactly the specified frame writes of the active slot |
| ShaderHlsl.HlslShaderData.SetProjMatrix | gfx/drivers_shader/shader_hlsl.c:74-80 | a given matrix replaces only the active slot's cached matrix; no matrix changes nothing |
| ShaderHlsl.HlslShaderData.SetMvp | gfx/drivers_shader/shader_hlsl.c:570-589 | the result is true iff the active slot has a matrix handle, in which case the cached matrix is written through the vertex table; otherwise nothing is written |
| ShaderHlsl.HlslShaderData.Num | gfx/drivers_shader/shader_hlsl.c:539-545 | the number of passes of the loaded description |
| HlslSpec.FilterAsWritten | gfx/drivers_shader/shader_hlsl.c:547-558 | the filter query as written: every specified filter is reported as smooth and overwritten with linear |
| HlslSpec.NearestReportedSmooth | gfx/drivers_shader/shader_hlsl.c:547-558 | as written, a nearest-filtered pass is reported smooth and its filter is changed |
| HlslSpec.FilterIntended | gfx/drivers_shader/shader_hlsl.c:547-558 | a pass filter is specified iff it is not "unspecified", is smooth iff it is linear, and is left unchanged |
| ShaderHlsl.HlslShaderData.FilterType | gfx/drivers_shader/shader_hlsl.c:547-558 | index 0 is never specified and keeps the caller's smoothing. Pass idx reports its own filter by the corrected query; the code's rewrite to linear is listed under Left out |
| ShaderHlsl.HlslShaderData.ShaderScale | gfx/drivers_shader/shader_hlsl.c:560-568 | index 0 marks the caller's scale invalid, and pass idx gives its own framebuffer scale |
| MenuList.Menu.constructor | menu/menu_displaylist.c:62-78 | a new menu list has no entries |
| MenuList.Menu.Add | menu/menu_displaylist.c:103-104 | one entry is appended and the others are kept |
| MenuLines.ScanEnd | menu/menu_displaylist.c:80-86 | the scan ends at the first NUL before the size bound, or at the bound |
| MenuLines.LinesOf | menu/menu_displaylist.c:80-104 | the lines found hold no newline, and the unterminated tail holds none either |
| MenuLines.LinesRoundTrip | menu/menu_displaylist.c:80-104 | the lines, each given back its newline, followed by the unterminated tail, give back the text |
| MenuLines.LinesCount | menu/menu_displaylist.c:88-89 | one line per newline |
| MenuLines.LinesOfUnterminated | menu/menu_displaylist.c:152-153 | a partial last line without a newline adds no entry |
| MenuLines.LinesOfTerminated | menu/menu_displaylist.c:80-104 | splitting newline-terminated lines gives back exactly those lines |
| MenuLines.Consumed | menu/menu_displaylist.c:94-101 | each newline passed is overwritten with NUL and every other byte is kept |
| MenuLines.LineEntriesAt | menu/menu_displaylist.c:103-104 | entry i is made from line i |
| MenuLines.EntriesStep | menu/menu_displaylist.c:103-104 | adding the entry of one more line extends the entries by exactly that entry |
| MenuLines.ScanFacts | menu/menu_displaylist.c:80-104 | the entries are one per newline before the first NUL or the size bound, in order, from the text between newlines |
| MenuLines.NoNewlineNoEntries | menu/menu_displaylist.c:152-153 | a buffer with no complete line adds no entry |
| MenuLines.Strlen | menu/menu_displaylist.c:99 | the length up to the next NUL |
| MenuLines.LineStep | menu/menu_displaylist.c:88-104 | a newline closes the current line and starts the next; any other byte adds no line |
| MenuLines.ConsumedStep | menu/menu_displaylist.c:94-101 | passing one more byte overwrites it only when it is a newline, and the current line is still intact |
| MenuLines.EmitLine | menu/menu_displaylist.c:94-104 | the line before the newline is appended as an entry, and the newline becomes NUL |
| MenuLines.ConsumeLine | menu/menu_displaylist.c:94-104 | one newline moves the scan to the next line, and the entries and the buffer track the specification |
| MenuLines.ScanLines | menu/menu_displaylist.c:80-104 | the entries appended are those of the lines before the first NUL or the size bound, and the buffer has those newlines overwritten |
| MenuLines.PrintBufLines | menu/menu_displaylist.c:62-154 | a missing buffer or a zero size adds the "no entries" item and leaves the buffer alone. Otherwise one entry per complete line is added, labelled with the given label |
| MenuLines.PrintBufLinesExtended | menu/menu_displaylist.c:156-266 | the same scan; each line is split on spaces into date, CRC and path name, and the entry is the path name, with an empty label |
| MenuUnits.BytesToKb | menu/menu_displaylist.c:627-630 | the number of whole kibibytes |
| MenuUnits.BytesToMb | menu/menu_displaylist.c:632-635 | the number of whole mebibytes |
| MenuUnits.BytesToGb | menu/menu_displaylist.c:637-640 | the number of whole gibibytes |
| MenuUnits.FloorUnique | menu/menu_displaylist.c:627-640 | the whole number of units in a size is unique |
| MenuUnits.UnitsAreFloorDivision | menu/menu_displaylist.c:627-640 | each conversion is floor division by its unit |
| MenuUnits.UnitsChain | menu/menu_displaylist.c:632-640 | each unit is the previous one divided by 1024 |
| MenuUnits.UnitsMonotone | menu/menu_displaylist.c:627-640 | a larger size never shows as fewer units |
| MenuSettings.FirstOfKind | menu/menu_displaylist.c:2347-2373 | a group scan stops at the first setting of its stop type |
| MenuSettings.ParseSettings | menu/menu_displaylist.c:2217-2383 | a missing start gives -1 and appends nothing. Otherwise the function gives 0 and appends exactly the specified entries |
| MenuSettings.ScanFrom | menu/menu_displaylist.c:2271-2373 | the loop appends the accepted settings from the start to the stop setting, and the count is the number appended |
| MenuSettings.AddedStep | menu/menu_displaylist.c:2279-2345 | one setting is appended iff its type is accepted and the page is not hidden |
| MenuSettings.AddedMembers | menu/menu_displaylist.c:2279-2345 | an entry is appended iff the page is not hidden and it comes from a scanned setting of an accepted type |
| MenuSettings.AddedCount | menu/menu_displaylist.c:2279-2345 | at most one entry per scanned setting, none iff hidden or nothing accepted, and never the "no settings" item |
| MenuSettings.SingleInspectsOne | menu/menu_displaylist.c:2357-2367 | a single-type mode looks at the start setting only. It adds that setting when it has the type, otherwise the empty item when asked |
| MenuSettings.HiddenAddsNoSettings | menu/menu_displaylist.c:2338-2340 | an advanced start setting with advanced settings hidden adds at most the empty item |
| MenuSettings.ScanMembers | menu/menu_displaylist.c:2271-2373 | a setting entry is on the page iff the page is not hidden and it comes from an accepted setting up to the stop one |
| MenuSettings.EmptyEntryIff | menu/menu_displaylist.c:2375-2380 | the "no settings" item is added iff asked and no setting was added |
| MenuSettings.StopSettingAdded | menu/menu_displaylist.c:2298-2299 | the sub-group mode also appends the stop setting itself, and the other group modes do not |
| MenuRemap.DescOffset | menu/menu_displaylist.c:3127-3131 | buttons keep their index, and analog axes past the first custom bind skip every second descriptor |
| MenuRemap.DescOffsetInjective | menu/menu_displaylist.c:3127-3131 | distinct binds read distinct descriptors, in order |
| MenuRemap.EntryTypeDecode | menu/menu_displaylist.c:3143-3144 | an entry type decodes back to its user and bind |
| MenuRemap.EntryTypeInjective | menu/menu_displaylist.c:3143-3144 | no two (user, bind) pairs share an entry type |
| MenuRemap.ParseUserBinds | menu/menu_displaylist.c:3122-3145 | one user's binds are appended in order, skipping the binds without a descriptor |
| MenuRemap.AddBind | menu/menu_displaylist.c:3124-3145 | one button's entry is appended, reading its descriptor at the button's offset and typed by user and button; a button without a descriptor appends nothing |
| MenuRemap.ParseRemapDescriptors | menu/menu_displaylist.c:3118-3147 | without system information nothing is appended, otherwise every user's binds in order |
| MenuRemap.BindStep | menu/menu_displaylist.c:3124-3145 | one bind appends its own entry, or none |
| MenuRemap.BindTypesIncreasing | menu/menu_displaylist.c:3122-3145 | one user's entry types strictly increase within that user's range |
| MenuRemap.UserTypesIncreasing | menu/menu_displaylist.c:3118-3147 | all entry types strictly increase from the first descriptor type |
| MenuRemap.BindMembers | menu/menu_displaylist.c:3122-3145 | an entry is appended for a user iff some bind has a descriptor and the entry describes it |
| MenuRemap.UserMembers | menu/menu_displaylist.c:3118-3147 | an entry is appended iff it describes a bind of some user that has a descriptor |
| MenuPlaylist.FindElem | menu/menu_displaylist.c:3467 | the 1-based position of the first equal name, and 0 iff there is none |
| MenuPlaylist.UpsertAll | menu/menu_displaylist.c:3450-3485 | the updates keep every name with a core slot |
| MenuPlaylist.Pairs | menu/menu_displaylist.c:3452-3459 | one (name, core) pair per playlist file |
| MenuPlaylist.PlaylistEntries | menu/menu_displaylist.c:3478-3484 | one entry per playlist file |
| MenuPlaylist.ParsePlaylistAssociations | menu/menu_displaylist.c:3437-3500 | the association lists are updated file by file in directory order, and one entry per file is appended, named by the file without extension, with its path and position-based type |
| MenuPlaylist.UpsertAllStep | menu/menu_displaylist.c:3450-3485 | one more file applies one more update |
| MenuPlaylist.PlaylistEntriesStep | menu/menu_displaylist.c:3478-3484 | one more file appends one more entry |
| MenuPlaylist.UpsertPreservesAlignment | menu/menu_displaylist.c:3461-3476 | an update keeps the lists aligned, and adds a name iff it was absent |
| MenuPlaylist.UpsertLookup | menu/menu_displaylist.c:3461-3476 | after an update the name reads back its new core, and every other name reads back what it did before |
| MenuPlaylist.FindElemAppend | menu/menu_displaylist.c:3461-3476 | appending a new name leaves the positions of the names already present alone |
| MenuPlaylist.UpsertIdempotent | menu/menu_displaylist.c:3461-3476 | the same update applied twice is applied once |
| MenuPlaylist.UpsertAllLookup | menu/menu_displaylist.c:3450-3485 | after all updates a name reads back the core of the last file filed under it, or its old core when no file is |
| MenuPlaylist.UpsertAllSameLength | menu/menu_displaylist.c:3450-3485 | equal-length lists stay equal length |
| Common.NoDuplicatesAppend | gfx/drivers_shader/shader_hlsl.c:377-399 | two duplicate-free, disjoint sequences stay duplicate-free when joined |

## Left out

- Direct3D and D3DX calls (`D3DXCompileShader`, `CreateVertexShader`, `GetConstantByName`, `SetMatrix`, `SetDefaults`) are parameters of the device:
  - compilation is a verdict function over the source;
  - constant lookup is a lookup function;
  - shader creation is assumed to succeed once compilation has;
  - the uniform values are abstract values.
- Floating-point matrices and vectors are opaque values. The width/height-to-float conversions of `hlsl_set_params` are folded into the abstract parameter values.
- `hlsl_set_uniform_parameter` has no effect in any case, and is not modelled.
- The null `data`, `hlsl` and `shader_data` guards are not modelled, and neither is `calloc` failure. The model's receivers are never null.
- `RARCH_HLSL_MAX_SHADERS` is the constructor parameter `maxShaders` (at least 3).
- Logging (`RARCH_LOG`, `RARCH_ERR`) is not modelled.
- HlslShaderData.LoadPreset: the method frees the configuration file as intended, with its handle cleared after the first free (`HlslSpec.PresetConfigFreedOnce`). The code's double free on a failing pass is modelled only at the specification level, by `HlslSpec.PresetConfigFrees` with the handle left set; see Findings. Whether the file opens and parses is an input (`readable`, `preset`), and the allocation failure of `cg_shader` at :414-418 is not modelled.
- The constant tables `f_ctable` and `v_ctable` are never released by the backend. `hlsl_deinit_progs` frees only the programs, and the memset in `hlsl_deinit` (gfx/drivers_shader/shader_hlsl.c:506) drops the table pointers. `hlsl_compile_program` releases neither the listing buffers on success nor `code_f` and `code_v` on its error path (:251-267). The model records no table release: the teardown frees (`HlslSpec.DeinitFrees`) hold only program frees, and `Deinit` resets every slot to the empty one.
- HlslShaderData.Init: a failed initialisation frees the backend allocation but leaks its shader description (`cg_shader`) and every program and constant table compiled before the failure, because `hlsl_deinit_progs` is not called on that path. The model keeps no allocation record, so it does not show the leak; it shows only that no free is sent to the device.
- The file-name extension test in `hlsl_init` (`path_get_extension(path)` compared with ".cgp", dot included, at gfx/drivers_shader/shader_hlsl.c:469) is the input `isPreset`. `path_get_extension` is not part of this model. If it returns the extension without its dot, this comparison is never true and presets are never loaded. That is not verified here.
- The config-file reading and pass parsing of `video_shader_read_conf_cgp` are represented by the `preset` input. `None` stands for an unreadable preset.
- `hlsl_mipmap_input`, `hlsl_get_feedback_pass`, `hlsl_get_current_shader`, `hlsl_wrap_type` and `hlsl_set_coords` are constant stubs with no state and are not modelled.
- The model's initialisation resolves the uniform handles of slots 1 to `passes` only. Slot 0 keeps unresolved handles, because the code's loop starts at 1. The backend's documented behaviour has every loaded slot resolved, including the stock slot; the model follows the code.
- PrintBufLines: `file_list_sort_on_alt` is not modelled, so the order of the entries is the order of the lines before that sort.
  - The display-name lookup for `FILE_TYPE_DOWNLOAD_CORE` is not modelled. It reads core-info files and sets the alt name of entry `j`.
- PrintBufLinesExtended: `string_split` of a line on " " into date, CRC and path name is the input `fields`. Only the path name is used; the date and CRC are discarded, as in the code. The model assumes three fields are always found.
- PrintBufLinesExtended: the final `file_list_sort_on_alt` (menu/menu_displaylist.c:263) is not modelled, so the order of the entries is the order of the lines before that sort. The display-name lookup for `FILE_TYPE_DOWNLOAD_CORE` (menu/menu_displaylist.c:216-247), which sets the alt name of entry `j`, is not modelled either.
- Path joining, `strlcpy` and `snprintf` truncation to fixed buffer sizes are not modelled. Strings are unbounded.
- Localised strings looked up through `msg_hash_to_str` are the entry kinds `NoEntriesToDisplay` and `NoSettingsFound`.
- MenuRemap.ParseRemapDescriptors: the entry label is the user and the descriptor (`RemapEntry`), not the formatted `"User %u %s : "` text.
  - The rest of `menu_displaylist_parse_options_remappings`, before and after the descriptor loop, is not part of this model.
- `RARCH_FIRST_CUSTOM_BIND`, `MENU_SETTINGS_INPUT_DESC_BEGIN`, `MENU_SETTINGS_PLAYLIST_ASSOCIATION_START` and `FILE_PATH_DETECT` are defined outside the files modelled. They are the parameters `first`, `descBegin`, `start` and `detect`.
- `settings->input.max_users` and `settings->menu.show_advanced_settings` are the parameters `maxUsers` and `showAdvanced`.
- `menu_setting_set_flags(setting)` is the setting's `entryType` field.
- ParsePlaylistAssociations: the following are function parameters:
  - `dir_list_new_special` is the sequence `paths`; a missing directory list is the empty sequence;
  - `path_basename` and `path_remove_extension` are `basename` and `stripExtension`;
  - `menu_content_playlist_find_associated_core` is `associatedCore`.
- Splitting the ';'-separated setting strings into lists and joining them back is not modelled. The lists are the input `lists`, and the joined result is the output `updated`.
- MenuPlaylist.FindElem: `string_list_find_elem` compares case-insensitively. The model compares exactly.
- MenuPlaylist.ParsePlaylistAssociations: requires the names list to be no longer than the cores list (`Aligned`). The two lists come from two independent `string_split` calls on two settings (menu/menu_displaylist.c:3441-3442), and nothing in the code keeps them aligned. With a longer names list, a name found past the end of the cores list makes `string_list_set(stcores, found-1, ...)` at menu/menu_displaylist.c:3470 write out of range, because that index is not checked against the cores list's size. The model does not cover inputs with more names than cores, so it does not show that out-of-range write.
- HlslShaderData.Use and HlslShaderData.SetParams: `hlsl_use` indexes `prg[idx]` (gfx/drivers_shader/shader_hlsl.c:527) and `hlsl_set_params` indexes `prg[active_idx]` (gfx/drivers_shader/shader_hlsl.c:154) without a bounds check. An out-of-range index is undefined behaviour in the code. The model excludes it: `Use` requires `idx < prg.Length`, and `Valid()` keeps `activeIdx` below the slot count.
- HlslShaderData.FilterType: this method follows the intended query (`HlslSpec.FilterIntended`). It reports smooth only for a linear pass, and it does not rewrite `pass[idx - 1].filter` to linear as the code does at gfx/drivers_shader/shader_hlsl.c:553-554. The code's behaviour is modelled by `HlslSpec.FilterAsWritten`; see Findings.
- HlslShaderData.FilterType and HlslShaderData.ShaderScale require `idx - 1` to index the description's passes. In the code the pass array is a fixed-size zero-filled array, so a larger index reads a zeroed pass (filter unspecified, scale invalid). The model's pass list holds only the passes the description declares, so it does not model those reads.
- MenuSettings.ParseSettings: a group mode requires a setting of its stop type somewhere at or after the start setting (`Scannable`). The loop at menu/menu_displaylist.c:2271-2373 has no such guard: when the stop setting is absent it walks past the end of the settings list. The model covers only lists that hold the stop setting.
- MenuPlaylist.UpsertLookup, MenuPlaylist.UpsertIdempotent and MenuPlaylist.UpsertAllLookup assume the two lists have equal length.
  - When the cores list is longer than the names list, an appended name is paired with an existing core slot rather than the appended one. The read-back then fails, and the code does the same.
- The Android launcher activity `MainMenuActivity.java` is not part of this model.

## Findings

| source | as written | input that shows it | evidently intended | confidence | as-written member | corrected member |
|---|---|---|---|---|---|---|
| gfx/drivers_shader/shader_hlsl.c:547-558 | any pass whose filter is specified is reported as smooth, and its filter is overwritten with linear | a pass whose filter is nearest: the query reports smooth, and the pass becomes linear | report smooth exactly when the pass filter is linear, and leave the pass alone | not executed | HlslSpec.NearestReportedSmooth | HlslSpec.FilterIntended |
| gfx/drivers_shader/shader_hlsl.c:427-448 | `config_file_free(conf)` at :427 does not clear `conf`, so the error label at :447-448 frees the same file again when a pass fails to compile at :438-439 | a readable preset with one pass whose vertex program does not compile | free the configuration file once: clear the handle after the first free | not executed | HlslSpec.PresetConfigDoubleFree | HlslSpec.PresetConfigFreedOnce |
