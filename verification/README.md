# Verification of Umbriel's configuration and input logic

This project models the parts of the Umbriel compositor that decide things without a display, and proves what they promise:

- how a configuration is assembled from included files (`Toml`, `TomlPaths`, `Declarations`, `Includes`, `ConfigMerge`), in
  which order and with whose values (`IncludeOrder`, `IncludeValues`), with two graphs that show its limits (`LinkedFiles`,
  `ResetFiles`),
- how outputs, workspaces and windows are resolved from it (`OutputNames`, `OutputSections`, `Config`, `Resolve`,
  `Workspaces`, `WorkspaceRules`, `WindowRules`, `LayerRules`), when a reload may skip resolving them again (`Change`,
  `Reloads`), and what makes it do so (`ChangeFlags`),
- effect presets, pools and the deferred validation of everything that names them (`EffectReferences`, `EffectPresets`,
  `EffectPools`, `EffectLoading`), which effects are in use, and when a reload leaves them alone (`EffectUse`,
  `EffectStability`),
- the store that loads, replaces and reloads configurations (`ConfigStore`), and what it reads and makes of it
  (`ConfigDecisions`),
- the numeric kernels behind animations and gestures (`Bezier`, `Easing`, `SwipeTracker`, `GesturePhysics`),
- the event-driven state machines for text input, touchpad gestures and the log (`TextInput`, `Gestures`, `LogRepeats`), with
  who is addressed by each message and which control each gesture takes (`TextInputMessages`, `GestureChoices`),
- the grammar of actions and of their workspace arguments (`ActionGrammar`, `WorkspaceArguments`).

`Options`, `Sequences`, `Decimals` and `Reals` hold shared vocabulary. Run `dafny verify dfyconfig.toml` to check everything.

Code that updates state is a class or a method with loops, proved equal to a function of the old state; what the code
promises is then proved about those functions, over every input or every run. Objects that exist only in C libraries appear
as the messages exchanged with them, kept as a ghost trace. Doubles are reals; non-finite doubles are a separate value where
the code looks for them.

## Findings

Where the code keeps less than its own promise, a lemma gives an input and another says exactly, or at least sufficiently,
when the promise holds.

- Merging is not associative: an empty array in between drops rules (`Toml.ResetDoesNotAssociate`). `AssociativeExactly` is
  the exact condition for one regrouping; `Includes.NestedIsFlat` needs the loaded files to agree on kinds, and
  `ResetFiles.NestedIsNotFlat` is an include graph of four files where nested expansion keeps a rule that merging the same
  files one after the other drops.
- Include targets are resolved relative to the name a file is first reached by, so a file reachable only under a second
  name of a loaded one is missed (`LinkedFiles.SecondNameIsSkipped`), as when `a/f` and `b/f` are links to one file that
  includes `x`.
- The check for too many workspace names counts per name of an output, so using both its port and its panel name loses
  workspaces (`WorkspaceRules.BothFormsLoseNames`). Names of output sections count as mentions too.
- An exception while merging lets an explicit load fall back to defaults, policy or not (`ConfigStore.ThrowingOpensDefaults`).
- A release multiplies the finger's speed by the slope at the damped position, so past an end it carries more than the
  visible speed its comment speaks of (`GesturePhysics.ReleaseSpeedIsVisibleIff`).
- The clock of swipe readings has 32 bits. `SwipeTracker.PushIsExactIff` says for every reading in order when the tracker still
  stands for the whole gesture: with whole turns of the clock taken off its distance to the newest reading, it has to be less
  than 2^31 ms after the oldest one kept, and a distance beyond 150 ms must not look like one within it. A gap of more than
  2^31 - 151 ms can keep a stale reading (`LongGapKeepsStaleReadings`), and one that wraps to 2^31 ms or more loses the
  reading (`RefusedIsMissing`).
- A debug message without section or text, logged first and within a second of the clock's origin, is taken for a repeat and
  lost (`LogRepeats.EmptyFirstMessageIsLost`). Nothing is lost if and only if the first message is not such a one, or nothing
  but such messages was ever logged, which then are all pending repeats (`LogRepeats.NothingIsLostIff`).
- The guard against an empty easing table never fires on real numbers (`Easing.TotalTravel`).

## Model

| member | source | states |
|---|---|---|
| Toml.DeepMerge | src/config/config_merge.cpp:424-454 | merging in place, key by key in any order, gives the one recursive merge: tables merge, non-empty collections of tables accumulate, anything else replaces |
| Toml.AbsorbsExactly | src/config/config_merge.cpp:424-454 | merging a value over another leaves exactly that value if and only if it has every key of the other and no collection of tables meets one |
| Toml.AssociativeExactly | src/config/config_merge.cpp:424-454 | merging three values groups either way if and only if the middle one resets nothing the outer two would have combined |
| Toml.MergeKeepsShape | src/config/config_merge.cpp:424-454 | a merge of values that agree with a third on the kind of every key still agrees with it |
| Toml.SameShapeAssociates | src/config/config_merge.cpp:413-454 | agreement on kinds is enough for merging to be associative |
| Toml.FoldConcat | src/config/config_merge.cpp:424-454 | merging two folds of agreeing documents is one fold over both runs, the empty table being the unit |
| Toml.EmptyIsUnit | src/config/config_merge.cpp:424-454 | merging the empty table on either side changes nothing |
| Toml.ResetDoesNotAssociate | src/config/config_merge.cpp:424-454 | an empty array between two rule collections makes the two groupings differ |
| Toml.MergeKeys | src/config/config_merge.cpp:424-454 | at every table path a merge keeps every overlay key and invents none |
| TomlPaths.MergedAt | src/config/config_merge.cpp:424-454 | at every place with nothing but tables above it, a merge combines what stands there on both sides and keeps what stands there on one |
| TomlPaths.Combined | src/config/config_merge.cpp:424-454 | how two values for one place combine: the later plain value, plain list or empty list replaces, rules follow the earlier rules, a table replaces all but a table |
| Includes.WalkLoadsOnce | src/config/config_merge.cpp:324-411 | on any include graph, cycles included, the walk ends, loads each file once under whatever name, only files that parse, and the root last |
| Includes.WalkLoadsReachable | src/config/config_merge.cpp:324-411 | only files reachable through parseable files are loaded, and every parseable include of a loaded file is |
| Includes.WalkLoadsExactlyReachable | src/config/config_merge.cpp:324-411 | when every name of a file leads to the same includes, the loaded files are exactly the reachable ones |
| Includes.VisitsOnce | src/config/config_merge.cpp:324-388 | the shared visited set grows by exactly the files loaded, none of which was in it |
| Includes.NestedIsFlat | src/config/config_merge.cpp:324-454 | when the loaded files agree on kinds, recursive expansion equals one left fold over the files in post-order of first visit |
| Includes.WalkKeys | src/config/config_merge.cpp:324-454 | every key of a merged nested table comes from a loaded file |
| LinkedFiles.SecondNameIsSkipped | src/config/config_merge.cpp:324-388 | without that agreement a reachable file can be missed: one reached only under the second name of a file already seen is never loaded |
| ResetFiles.NestedIsNotFlat | src/config/config_merge.cpp:324-454 | without agreement on kinds the two differ on a graph of four files: nested expansion keeps the rule of `a`, the fold in post-order drops it at the empty list of `c` |
| IncludeOrder.IncludesAreLoadedInTurn | src/config/config_merge.cpp:346-386 | any file of the walk is loaded after the files its required entries bring, entry after entry, and then those its optional entries bring; each entry brings the visit of its target, which ends with the target, or nothing when that was seen or cannot be read |
| IncludeOrder.RequiredComeBeforeOptional | src/config/config_merge.cpp:384-385 | each parseable required include of a root is loaded before each optional one that no required entry brings |
| IncludeOrder.DirectiveIsRead | src/config/config_merge.cpp:204-285 | the lists read from any table are its usable entries in order, and the directive is malformed exactly when something else stands in it |
| IncludeOrder.DirectiveReadsBack | src/config/config_merge.cpp:204-285 | a directive written from two lists of paths reads back as those lists, required and optional not mixed up |
| IncludeValues.LastWrittenValueWins | src/config/config_merge.cpp:324-479 | at any place with only tables above it in the loaded files, the plain value of the last file of the walk that writes there is the one in the merged document, and nothing is there when no file writes; pools dropped for their names aside |
| IncludeValues.RootHasTheLastWord | src/config/config_merge.cpp:386-388 | a plain value the root writes itself stands |
| IncludeValues.RulesAddUp | src/config/config_merge.cpp:413-454 | where every loaded file has rules or nothing, the merged document has the rules of all of them in the order of loading |
| IncludeValues.NoDirectiveIsLeft | src/config/config_merge.cpp:340-340 | the merged document holds no include directive |
| ConfigMerge.MergeWithIncludes | src/config/config_merge.cpp:456-479 | the merged table, declaration lists, watched files and failure flags are those of the walk, file after file |
| ConfigMerge.Merger.LoadAndExpand | src/config/config_merge.cpp:391-411 | loading one file under the shared state adds exactly what its visit finds |
| ConfigMerge.Merger.ExpandFile | src/config/config_merge.cpp:324-388 | expanding a parsed file merges required includes, then optional ones, then its own table, and records each |
| ConfigMerge.Merger.RecordEffectOrigins | src/config/config_merge.cpp:288-322 | a file's preset and pool names are appended unless already declared |
| ConfigMerge.ReadInclude | src/config/config_merge.cpp:242-285 | the include directive of a table, and whether any part of it is malformed |
| ConfigMerge.ReadIncludeFiles | src/config/config_merge.cpp:204-240 | the usable entries of one include list, and whether any entry is not a path |
| ConfigMerge.DropClashes | src/config/config_merge.cpp:466-478 | removes exactly the pools declared under a preset name |
| Declarations.DeclareLocal | src/config/config_merge.cpp:293-319 | appends the names not yet known, in order |
| Declarations.DeclaresInFirstOrder | src/config/config_merge.cpp:288-322 | declared names are duplicate-free, complete, and ordered by first declaration |
| ConfigMerge.DeclarationsAreInOrder | src/config/config_merge.cpp:287-322 | the preset and pool declarations of a whole load are each duplicate-free, complete, and ordered by first declaration along the walk's post-order |
| ConfigMerge.EffectNamesAreDeclared | src/config/config_merge.cpp:456-479 | every preset and pool left in the merged table was declared, and no surviving pool has the name of a declared preset |
| ConfigMerge.KeysAreDeclared | src/config/config_merge.cpp:287-322 | the names declared by a run of files are exactly the keys of their effect tables |
| ConfigMerge.RecordsEveryTarget | src/config/config_merge.cpp:324-411 | the files on record are exactly the root, the loaded files and every include target of a loaded file, whether it could be read or not |
| ConfigMerge.ReportsEveryFailure | src/config/config_merge.cpp:324-411 | the missing-include and error flags are set exactly when some loaded file has such an include, directive or target |
| OutputNames.OutputNamesEqual | src/output/identity.cpp:31-41 | decides equality of names up to ASCII case |
| OutputNames.DescriptorEqualsIsSameName | src/output/identity.cpp:13-29 | comparing a name piece by piece decides equality with the descriptor it never builds |
| OutputNames.MatchIsByName | src/output/identity.cpp:68-76 | equal names match an identity alike, and two names that match it the same way are equal |
| OutputNames.MatchNameExactly | src/output/identity.cpp:68-76 | a name means an output by its connector, or else by make, model and serial with `Unknown` for what is empty, unless all three are |
| Resolve.FindOutputRule | src/config/resolve.cpp:13-27 | the first rule naming the panel, or else the last rule naming the port |
| Resolve.FirstDescriptorFinds | src/config/resolve.cpp:13-27 | a panel rule is found whenever one exists |
| Resolve.LastConnectorFinds | src/config/resolve.cpp:13-27 | a port rule is found whenever one exists |
| Resolve.MatchingRuleExactly | src/config/resolve.cpp:13-27 | by position: the first section that names the panel applies, or else the last that names the port, and none exactly when no section matches |
| Resolve.ApplyWorkspaceLayoutOverrides | src/config/resolve.cpp:84-159 | overwrites exactly the fields the override sets and recomputes the derived gaps |
| Resolve.ResolveWorkspaceLayout | src/config/resolve.cpp:474-513 | the layout of a workspace as a fold of the matching overrides, general rules before those scoped to the output |
| Resolve.LastWriterWins | src/config/resolve.cpp:84-159 | for any field, folding overrides leaves the value of the last one that sets it |
| Resolve.LayoutComesFromLastRule | src/config/resolve.cpp:442-513 | each field of a resolved layout comes from the last applicable rule that sets it, and the derived gaps follow |
| Resolve.UnruledLayoutIsGlobal | src/config/resolve.cpp:442-487 | without workspace rules every field is that of the global settings, with the strip across the workspace axis of the output's section and that section's column size if it sets one |
| Workspaces.DynamicWorkspaceNames | src/config/resolve.cpp:71-82 | the distinct names declared for an output, in rule order |
| Workspaces.DeclaredNamesHold | src/config/resolve.cpp:71-82 | they are exactly the names some rule declares for it |
| Workspaces.NamesFollowTheRules | src/config/resolve.cpp:71-82 | names are listed in the order of the rules that first declare them |
| Workspaces.ResolveWorkspacesForOutput | src/config/resolve.cpp:520-572 | the whole workspace set of an output, position by position |
| Workspaces.DynamicShape | src/config/resolve.cpp:515-572 | a dynamic set keeps the first distinct names that fit, in one block in declaration order, ends with an unnamed workspace, has one above exactly when asked, and kept plus omitted are all the names |
| Workspaces.FixedShape | src/config/resolve.cpp:554-571 | a count gives that many unnamed workspaces called by their numbers, a list gives its names in order |
| Workspaces.GapComesFromItsRules | src/config/resolve.cpp:474-572 | the gap of a workspace is that of the last rule for this output, or else for all, that has its number or its name and sets one, and the global gap when none does; number `k` means position `k - 1`, which is called `k` unless it is named |
| WorkspaceRules.ReadWorkspaces | src/config/fields_layout.cpp:260-395 | accepts a rule list exactly when every rule has one selector and an existing target, no selector repeats, and no output is given too many names |
| WorkspaceRules.AcceptedExactly | src/config/fields_layout.cpp:294-390 | the same without the reader's own tests: one selector, a section or a dynamic output that offers the target, no two rules that select the same, and sets of given names that fit |
| WorkspaceRules.CheckSelectors | src/config/fields_layout.cpp:294-336 | the selector part of that, over all pairs of rules |
| WorkspaceRules.TargetExistsExactly | src/config/resolve.cpp:218-234 | a rule has a target exactly when the section of its output offers that workspace, or, for all outputs, a dynamic output or some section does |
| WorkspaceRules.AcceptedRulesReach | src/config/fields_layout.cpp:326-334 | an accepted rule for one output, mentioned under one name, reaches one of its workspaces, unless it counts on one a dynamic output only makes as needed |
| WorkspaceRules.AcceptedRulesDoNotCompete | src/config/fields_layout.cpp:304-324 | of two accepted rules with the same scope that reach one workspace, one counts and the other names it |
| WorkspaceRules.CheckOverflow | src/config/fields_layout.cpp:338-393 | the overflow part of that, for the empty output and every output a rule names |
| WorkspaceRules.ReportDynamicNameOverflow | src/config/fields_layout.cpp:338-375 | stops early exactly when the distinct names given to an output exceed the capacity |
| WorkspaceRules.NoNameIsOmitted | src/config/fields_layout.cpp:338-390 | an accepted configuration loses no named workspace on a dynamic output it mentions under one name only |
| WorkspaceRules.OmittedIff | src/config/resolve.cpp:520-529 | a dynamic output loses a name exactly when the distinct names declared for it, under any of its names, exceed the capacity |
| WorkspaceRules.BothFormsLoseNames | src/config/fields_layout.cpp:338-390 | an accepted configuration that names an output both by port and by panel loses 17 names |
| OutputSections.ParseOutputWorkspaces | src/config/fields_output.cpp:29-69 | a node is accepted exactly when it is a count from 1 to 64, a list of 1 to 64 distinct non-empty names, or the word dynamic; the first two give that inventory, the word leaves what was there, which for a new section is none; anything else is an error and changes nothing |
| OutputSections.AcceptOutput | src/config/fields_output.cpp:168-199 | a later section replaces every earlier one for the same output, drops their effect references, is appended, records its own reference, and is an error exactly when it sets `min_workspaces` beside a fixed inventory |
| OutputSections.AcceptOutputs | src/config/fields_output.cpp:168-205 | all sections of a document in turn, with the references on record and whether any section is an error |
| OutputSections.RecordsMatchSections | src/config/fields_output.cpp:179-198 | after all sections the references on record are those recorded before and then exactly those of the sections in force, in their order |
| OutputSections.ValidateScreenEffects | src/config/fields_effects.cpp:343-368 | each rejected reference clears the screen effect of the first rule with its output's name, one reference after the other |
| OutputSections.SectionsKeepTheirEffect | src/config/fields_output.cpp:179-198 | after validation each section in force has its screen effect exactly when that effect may be used, whatever the sections it replaced said |
| OutputSections.SectionsShowWhatTheyMay | src/config/effects.cpp:180-209 | the same, said of definitions: the effect stays exactly when it is empty, off, a screen preset without a scene, or a screen pool |
| OutputSections.StaleReferencesWouldClear | src/config/fields_output.cpp:179-185 | with the replaced section's reference kept, a bad effect there would clear the good one that replaced it |
| OutputSections.InForceIsDistinct | src/config/fields_output.cpp:169-193 | no two sections in force name the same output |
| OutputSections.LastSectionWins | src/config/fields_output.cpp:168-193 | looking an output up finds the last section accepted for it |
| WindowRules.ResolveWindowRules | src/config/resolve.cpp:236-383 | every setting of a window comes from the last matching rule that has it, a size in pixels and one as a fraction displacing each other |
| WindowRules.LaterRuleCovers | src/config/resolve.cpp:236-383 | appending a rule covers, for the windows it is for, exactly the settings it has; no rules give no settings |
| WindowRules.IsForExactly | src/config/resolve.cpp:242-271 | a rule is for a window when its patterns, if any constrains, find the window's names, and each of the eight other selectors is unset or right |
| WindowRules.TearingOverrideDependsOn | src/config/resolve.cpp:236-383 | the tearing override depends only on the rules that set it, reduced to their selectors and that setting |
| WindowRules.NoEffectSelected | src/config/resolve.cpp:236-383 | rules none of which names an effect leave every window the default effects |
| LayerRules.ResolveLayerRules | src/config/resolve.cpp:385-412 | every setting of a layer surface comes from the last matching rule that has it |
| LayerRules.LaterRuleCovers | src/config/resolve.cpp:385-412 | appending a rule covers, for the surfaces it is for, exactly the settings it has; no rules give no settings |
| LayerRules.SampledCacheIsKept | src/config/config.h:1128-1145 | whatever samples the cached blur, a window, a layer surface or a popup of either, under any rules, finds the cache kept |
| Change.OutputProjectionChanged | src/config/change.cpp:27-39 | true exactly when some old section has no counterpart with an equal projection, or some new section without a counterpart differs from the defaults |
| Change.SameWindowTearingPolicy | src/config/change.cpp:112-145 | the two-cursor loop decides equality of the filtered, projected rule lists |
| Change.SameDynamicWorkspaceDeclarations | src/config/change.cpp:154-178 | the same for rules that declare workspaces by name |
| Change.Between | src/config/change.cpp:200-253 | all thirteen summary flags as functions of the two configurations, quantified over sections, rules, events and bound actions |
| Change.NoNewNames | src/config/change.cpp:18-25 | section lists of equal length whose old names all persist have the same names, by counting |
| Change.MatchingRulesCorrespond | src/config/change.cpp:11-25 | the rules that match an identity before and after are sections of the same name |
| Change.OutputStateIsStable | src/config/change.cpp:41-54 | an unset output-state flag keeps a rule for every output that had one and for no other, and the two agree on enabled, mode, position, scale, transform, vrr, hdr, sdr_white and bit_depth; an unset direct-scanout flag likewise on direct_scanout |
| Change.TearingIsStable | src/config/change.cpp:56-61 | an unset tearing flag leaves every tearing decision unchanged, for every output, window, state and client hint |
| Change.InventoryIsStable | src/config/change.cpp:147-178 | an unset inventory flag leaves the names and kinds of every output's workspaces unchanged |
| Change.LayoutIsStable | src/config/change.cpp:200-238 | an unset layout flag leaves every workspace set unchanged, layouts included |
| ChangeFlags.OutputFlagsExactly | src/config/change.cpp:200-212 | each flag about outputs is set if and only if an output is named on one side only, two sections for one output differ in the settings the flag stands for, or, for tearing, the deciding window rules differ |
| ChangeFlags.WorkspaceFlagsExactly | src/config/change.cpp:213-238 | the same for inventory and layout, with what the section of an output, the declarations and the global settings contribute |
| ChangeFlags.EffectsFlagExactly | src/config/change.cpp:219-227 | the effects flag is set if and only if the definitions, the presentation, a bound effect, a screen effect, an animated event or the rules of windows with effects differ |
| ChangeFlags.SurfaceFlagsExactly | src/config/change.cpp:216-250 | the remaining flags, each if and only if one of the parts it stands for differs |
| ChangeFlags.EqualConfigurationsChangeNothing | src/config/change.cpp:200-253 | a reload of an equal configuration leaves every flag unset |
| EffectUse.SameAnimationEffects | src/config/change.cpp:76-90 | decides whether two animations agree on every event's effect and switch, on the master switch and on dragging |
| EffectUse.AnimationsAgreeExactly | src/config/change.cpp:76-90 | written out for the nine configured events |
| EffectUse.ConfiguredEffectActionRoots | src/config/change.cpp:180-198 | the effects named by key bindings and by enabled hot corners |
| EffectUse.RootsAre | src/config/change.cpp:180-198 | a name is among them exactly when it is an effect at all and some binding, or some corner that is enabled, names it |
| EffectUse.OptimizedBlurNeeded | src/config/config.h:1130-1145 | true exactly when the global setting, some window rule or some layer rule asks for the cached blur |
| EffectUse.ReferencedNames | src/scene/effect_registry.cpp:175-219 | the effects in use: what is configured or selected at run time, then the members of referenced pools, then the overlays of referenced presets |
| EffectUse.SelectedAre | src/scene/effect_registry.cpp:175-202 | a name is selected exactly when it is an effect at all and a default, the presentation, a window rule, an output, an enabled event of an enabled animation, or a bound action names it |
| EffectUse.SelectionsAreReferenced | src/scene/effect_registry.cpp:175-205 | everything selected there or at run time is in use |
| EffectUse.OnePassReachesAll | src/scene/effect_registry.cpp:206-218 | when members and overlays name presets and overlays have none of their own, one pass leaves nothing a referenced effect needs out |
| EffectUse.OnlyWhatIsNeeded | src/scene/effect_registry.cpp:175-219 | and nothing is in: any set that holds the selections and all its members need holds every referenced name |
| EffectStability.ValidatedIsFlat | src/scene/effect_registry.cpp:213-218 | effects with distinct names, overlays on borders only, and every member and overlay accepted have that form, so the effects in use are closed |
| EffectStability.ScreenEffectIsStable | src/server/effects.cpp:91-98 | an unset effects flag leaves the screen effect of every output, and whether a rule chose it, unchanged |
| EffectStability.WindowEffectsAreStable | src/view/view_rules.cpp:622-660 | and the border and window effects every window is configured with |
| EffectStability.ReferencedIsStable | src/config/change.cpp:220-227 | and the set of effects in use, whatever is selected at run time |
| Reloads.WorkspacesStayWithinTheLimit | src/config/resolve.cpp:515-572 | under an accepted document every output has between 1 and 64 workspaces |
| Reloads.ReadIsDescribed | src/config/config.cpp:97-109 | reading sections without an error, accepting the workspace rules against them, and only then validating effect references gives a configuration that an accepted document describes |
| Reloads.ReloadSkipsOnlyWhatIsUnchanged | src/config/change.cpp:200-253 | between any two accepted documents, what an unset flag lets a reload skip would come out the same for every output, window and layer surface: all settings an output is driven with, scanout, tearing, inventory, layouts, effects in use, kept cache, window settings, dimming, and blur of windows and layers; the flags for animation, input, overview and internal surfaces are plain comparisons of the parts they stand for |
| Reloads.SampledCacheIsAlreadyKept | src/config/change.cpp:216-217 | after a reload that leaves the scene's blur flag unset, whatever samples the cached blur, by any new rule, finds the one kept before |
| Reloads.AlwaysDescribed | src/config/store.cpp:193-301 | over any run of loads, replacements and reloads, what is in force from the first success on is described by an accepted document |
| Reloads.EveryCommitSkipsSafely | src/config/store.cpp:158-171 | after any such run, the effects a successful operation reports leave out only what is the same before and after it |
| EffectReferences.FindPreset | src/config/effects.cpp:170-173 | a preset with that name, or proof that there is none |
| EffectReferences.FindPool | src/config/effects.cpp:175-178 | a pool with that name, or proof that there is none |
| EffectReferences.SameRejections | src/config/effects.cpp:180-209 | whether a reference is rejected depends on names, kinds and scopes only, never on what a selector holds |
| EffectReferences.Loaded.ValidateEffectReferences | src/config/fields_effects.cpp:343-372 | runs every callback against the state it meets and only then erases blanks |
| EffectReferences.CallbacksClear | src/config/fields_effects.cpp:343-368 | exactly the slots with a rejected reference under the original definitions are cleared, and nothing else changes |
| EffectReferences.OnePassSuffices | src/config/fields_effects.cpp:343-368 | after one pass every recorded slot is blank or holds a name that is still accepted |
| EffectReferences.ClearedIffRejected | src/config/fields_effects.cpp:343-368 | a slot recorded once is cleared exactly when its name is rejected |
| EffectReferences.PresetStandsIff | src/config/effects.cpp:180-209 | a slot that names a preset keeps it exactly when the kind is right, no pool is asked for, and the scene suits the binding: a pair for a workspace switch, a set for the presentation, a window scene for opening or closing, no scene for anything but the presentation |
| EffectReferences.PoolStandsIff | src/config/effects.cpp:187-199 | one that names a pool keeps it exactly when the kind is right and no preset is asked for |
| EffectReferences.OtherNamesStandIff | src/config/effects.cpp:184-200 | one that names neither keeps only `off`, where that is allowed |
| EffectReferences.OrderDoesNotMatter | src/config/fields_effects.cpp:343-368 | the order in which references were recorded does not affect the result |
| EffectReferences.EraseBlanks | src/config/fields_effects.cpp:369-372 | removes the blanks of one list and keeps the rest in order |
| EffectPools.ReadEffectPools | src/config/fields_effects.cpp:187-265 | appends the defined pools in declaration order and records one reference per member, at its position |
| EffectPools.ReadMembers | src/config/fields_effects.cpp:240-263 | keeps the first of each usable member name |
| EffectPools.ChosenInOrder | src/config/fields_effects.cpp:240-263 | in the order in which they are first chosen |
| EffectPools.PoolIsDescribed | src/config/fields_effects.cpp:187-240 | a declared name defines a pool exactly when it is usable and its table names a kind other than animation, has a list, and chooses in a known way if it says how |
| EffectPools.PoolsKeepWhatStands | src/config/fields_effects.cpp:343-372 | positions stay right: validation leaves each pool exactly its members that name a preset of its kind, in order |
| EffectPools.PoolsHoldTheirPresets | src/config/fields_effects.cpp:187-265 | after reading and validation every pool has distinct, non-empty members, exactly the written names of presets of its own kind that are not bound to a scene |
| EffectPresets.ReadEffectPresets | src/config/fields_effects.cpp:52-185 | appends the defined presets in declaration order and records one reference per written overlay, at the position of its preset |
| EffectPresets.PresetIsDescribed | src/config/fields_effects.cpp:52-185 | a declared name defines exactly the preset its table describes: its kind, its scope if the interface is that of scenes, and its overlay if it is a border |
| EffectPresets.ReadsHold | src/config/fields_effects.cpp:52-185 | every preset read has a declared, valid name that is a key of its table, and an overlay only if it is a border |
| EffectPresets.NamesAreDistinct | src/config/fields_effects.cpp:52-70 | names declared once each give presets with distinct names |
| EffectLoading.ReadEffects | src/config/fields_effects.cpp:276-324 | reading both tables leaves the presets and pools they define, with every overlay and member on record and nothing else recorded for a member |
| EffectLoading.ReadingValidates | src/config/fields_effects.cpp:343-372 | validating what was recorded then leaves distinct non-empty names, overlays on borders only, and no member or overlay that is not accepted by the definitions that are left |
| EffectLoading.LoadedEffectsAreClosed | src/config/config.cpp:97-109 | for any include graph, the effects a load leaves are validated in that sense, and the effects in use are closed after one pass, whatever is selected at run time |
| ConfigStore.ConfigStore.ParseConfig | src/config/config.cpp:72-139 | the outcome, diagnostics, watched files and missing-include flag of reading a root |
| ConfigDecisions.OutcomesExactly | src/config/config.cpp:72-139 | a file is accepted exactly when merging finds no error, no missing include can hide a device policy, and neither merging nor reading reports an error |
| ConfigDecisions.NoReportIsDropped | src/config/config.cpp:72-139 | the diagnostics hold everything merging and reading reported, and one report of the store's own where it could not go on |
| ConfigStore.ConfigStore.LoadConfig | src/config/store.cpp:193-225 | a load that fails still moves the root and the search order but never what is in force; it succeeds exactly on an accepted document, on permitted defaults, or on a missing implicit file |
| ConfigDecisions.LoadReadsTheFirstFound | src/config/store.cpp:94-113 | a load without a path reads the first file found among the user's, the system's and the one in the data directory, in this order, and no other |
| ConfigDecisions.UserFileComesFirst | src/config/store.cpp:94-113 | the user's whenever it is found |
| ConfigDecisions.DataFileComesLast | src/config/store.cpp:94-113 | the one in the data directory if and only if nothing else is found |
| ConfigDecisions.LoadFindsNothing | src/config/store.cpp:105-112 | and the place of the user's when nothing is |
| ConfigDecisions.ExplicitReadsItsFile | src/config/store.cpp:193-301 | an operation that names a file, or follows one that did, reads that file, reports it when it is missing, and stays with it |
| ConfigDecisions.TakesEffectExactly | src/config/store.cpp:193-301 | an operation commits exactly when its file is accepted; a load also when defaults may stand in or nothing is there to be found; a reload only in the last case, when its whole search found nothing |
| ConfigDecisions.NoFileMeansDefaults | src/config/store.cpp:193-301 | where no file is found the defaults are in force and the file counts as missing |
| ConfigStore.ConfigStore.ReplaceConfig | src/config/store.cpp:227-271 | a replacement that fails restores diagnostics, watched paths and the missing-include flag, and returns exactly the errors found, in order |
| ConfigStore.ConfigStore.ReloadConfig | src/config/store.cpp:273-301 | a reload succeeds exactly on an accepted document, or with defaults when an implicit search finds no file at all, and leaves root and search order alone otherwise |
| ConfigDecisions.ReloadReadsTheFirstFound | src/config/store.cpp:273-282 | an implicit reload searches anew in the order of the last load |
| ConfigDecisions.ReloadFindsNothing | src/config/store.cpp:105-112 | and looks where it looked first when nothing is found |
| ConfigStore.ConfigStore.Commit | src/config/store.cpp:158-171 | counts the commit, and asks to recompute everything the first time and the difference between the configurations afterwards |
| ConfigStore.ConfigStore.BeginLoad | src/config/store.cpp:133-148 | forgets diagnostics and watches the given paths once each |
| ConfigStore.FailureKeepsWhatIsInForce | src/config/store.cpp:193-301 | a failed replacement changes nothing at all, and no failure changes what is in force or the generation |
| ConfigStore.GenerationCountsSuccesses | src/config/store.cpp:158-171 | over any run the generation counts the operations that took effect |
| ConfigStore.InForceOverRuns | src/config/store.cpp:193-301 | over any run the configuration in force was put there by the last success, from an error-free regular file or as the defaults |
| ConfigStore.AlwaysSettled | src/config/store.cpp:133-148 | from the first load on, the root and the whole search order stay watched, no path twice, and a session without a file runs on the defaults |
| ConfigStore.EveryTargetIsWatched | src/config/config.cpp:82-84 | after a load, a reload or a successful replacement every include target of every loaded file is watched |
| ConfigStore.DefaultsStandInExactly | src/config/config.cpp:85-139 | defaults stand in for a file that was read exactly when merging threw, or reading reported an error and the document either does not speak of devices or has an empty table for them and no include missing |
| ConfigStore.PolicyFailsClosed | src/config/config.cpp:85-139 | a document with anything but an empty table for devices, and any error, changes nothing in force |
| ConfigDecisions.MissingIncludeBlocksPolicy | src/config/config.cpp:85-90 | a document that speaks of devices changes nothing in force while any file it loads includes a file, required or optional, that does not exist |
| ConfigDecisions.MissingIncludesAreNoted | src/config/config.cpp:76-76 | the store notes a missing include exactly when some loaded file requires one that does not exist |
| ConfigStore.ThrowingOpensDefaults | src/config/config.cpp:133-138 | when merging throws, an explicit load of that file puts the defaults in force |
| Bezier.SolveCubicBezier | src/core/animation.cpp:272-333 | for all control points and every x, the height at a parameter whose horizontal position is within 3/4096 of x; exactly 0 and 1 outside |
| Bezier.Newton | src/core/animation.cpp:298-314 | Newton's method stays in the unit interval and only reports a parameter within its tolerance |
| Bezier.Bisect | src/core/animation.cpp:316-332 | twelve halvings bring the position within 3/4096 |
| Bezier.RisesSlowly | src/core/animation.cpp:283-296 | with clamped controls the horizontal coordinate never falls and is 3-Lipschitz |
| Bezier.AtIsCubicBezier | src/core/animation.cpp:283-295 | the evaluated polynomial is the Bernstein form of the curve, and the slope its derivative |
| Easing.MonotonicEasing.Reset | src/core/animation.cpp:662-712 | a curve is used directly exactly when its samples rise inside the unit interval, replaced by the linear one exactly when a sample is not finite, and otherwise tabulated |
| Easing.TakeSamples | src/core/animation.cpp:662-686 | the grid samples and whether they rise |
| Easing.MonotonicEasing.BuildTable | src/core/animation.cpp:691-712 | the table holds at each grid point the share of the whole travel completed there |
| Easing.MonotonicEasing.Value | src/core/animation.cpp:714-730 | answers directly or from the table, always inside it |
| Easing.TotalTravel | src/core/animation.cpp:701-706 | the scaled travel is at least 1, so the guard against an empty table never fires |
| Easing.TableRises | src/core/animation.cpp:696-712 | the table runs from 0 to 1 and never falls |
| Easing.TableProgressRises | src/core/animation.cpp:714-730 | tabulated progress stays in the unit interval, meets both ends, and never runs backwards between any two arguments |
| Easing.TableOnGrid | src/core/animation.cpp:726-729 | on the grid the table answers with its entries |
| Easing.TableIsLinearBetween | src/core/animation.cpp:726-729 | between two grid points it answers along the line that joins their entries |
| Easing.DirectIsTheTable | src/core/animation.cpp:722-724 | a curve that needs no table answers on the grid just as its table would |
| Easing.DirectFollowsTheCurve | src/core/animation.cpp:714-724 | a curve asked directly answers as itself inside the unit interval and with the nearer end outside |
| Easing.DirectRisesOnGrid | src/core/animation.cpp:722-724 | and so rises on the grid |
| Easing.ValuesStayInUnit | src/core/animation.cpp:714-730 | whatever curve an object was reset with, its finite values stay in the unit interval, every value of a table is finite, and both ends are met |
| Easing.TableValuesRise | src/core/animation.cpp:714-730 | an object with a table never runs backwards, between any two arguments |
| Easing.DirectValuesRise | src/core/animation.cpp:714-730 | one without a table never runs backwards between grid points |
| SwipeTracker.SwipeTracker.Push | src/input/swipe_tracker.cpp:8-22 | a reading older than the newest is refused; any other is added to the position and to the trimmed history |
| SwipeTracker.SwipeTracker.TrimHistory | src/input/swipe_tracker.cpp:54-62 | what is left is the history from the first reading within the limit of now |
| SwipeTracker.SwipeTracker.CurrentVelocity | src/input/swipe_tracker.cpp:29-47 | motion after the oldest kept reading, per second |
| SwipeTracker.ElapsedIsExact | src/input/swipe_tracker.cpp:12-14 | the signed 32-bit difference is the true one exactly when that fits |
| SwipeTracker.PushIsExactIff | src/input/swipe_tracker.cpp:8-22 | after any reading that is not older than the newest, however long after it, the tracker stands for all readings if and only if the reading, whole turns of the clock taken off, is less than 2^31 ms after the oldest kept one and looks beyond 150 ms when it is |
| SwipeTracker.RefusedIsMissing | src/input/swipe_tracker.cpp:10-15 | a reading whose distance wraps to 2^31 ms or more is refused although it is newer, and its history is not the window |
| SwipeTracker.PushTracks | src/input/swipe_tracker.cpp:8-22 | with gaps of at most 2^31 - 151 ms the tracker keeps standing for all accepted readings: position is their sum, history their window, never empty |
| SwipeTracker.PastIsRejected | src/input/swipe_tracker.cpp:10-15 | a reading up to 2^31 ms in the past changes nothing |
| SwipeTracker.TracksTheGesture | src/input/swipe_tracker.cpp:8-22 | over a whole gesture, in whatever order readings arrive, the tracker stands for exactly those not out of date |
| SwipeTracker.LongGapKeepsStaleReadings | src/input/swipe_tracker.cpp:54-62 | beyond that gap a stale reading is kept |
| SwipeTracker.VelocityIsTrue | src/input/swipe_tracker.cpp:29-47 | the velocity is motion per second of true time, across wraparound |
| GesturePhysics.RubberBandRises | src/input/gesture_physics.h:24-28 | the band is the identity in its range, strictly increasing and 1-Lipschitz everywhere, and within the limit of its range |
| GesturePhysics.DampingHalves | src/input/gesture_physics.h:81-84 | an excess of twice the limit is damped to half the limit, and no excess to more than half of it |
| GesturePhysics.OverscrollDifference | src/input/gesture_physics.h:81-84 | how two damped excesses differ, exactly |
| GesturePhysics.DerivativeIsSlope | src/input/gesture_physics.h:30-39 | outside the range the derivative is the slope of the band, with a remainder at most quadratic in the step |
| GesturePhysics.TargetExists | src/input/gesture_physics.h:41-46 | a step target is a step that exists |
| GesturePhysics.TargetIsNearest | src/input/gesture_physics.h:41-46 | and of all steps the nearest to the projection |
| GesturePhysics.RoundIsNearest | src/input/gesture_physics.h:45-45 | rounding goes to the nearest integer, halves away from zero |
| GesturePhysics.DampingKeepsTheTarget | src/input/gesture_physics.h:60-78 | a release lands on the undamped projection, clamped and rounded |
| GesturePhysics.ProjectionLiesAhead | src/input/swipe_tracker.cpp:49-52 | the projected end lies ahead of the position in the direction of the velocity, in proportion to it |
| GesturePhysics.ReleaseAimsAhead | src/input/gesture_physics.h:60-78 | so a release lands no step short of where the gesture is, on the side it moves to |
| GesturePhysics.ReleaseBeginsWhereSeen | src/input/gesture_physics.h:60-78 | the position of a release is the one travelled to inside the range, and past an end on the same side, short of it and within the limit |
| GesturePhysics.ReleaseSpeedIsVisibleIff | src/input/gesture_physics.h:73-76 | the speed a release carries is the visible one if and only if the fingers rest or are inside the range; past an end it is larger |
| GesturePhysics.RestingReleaseLandsInPlace | src/input/gesture_physics.h:60-78 | resting longer than the window before letting go leaves no speed, and the gesture lands where the fingers are |
| LogRepeats.Logger.LogMessage | src/core/log.cpp:383-411 | one call either counts a repeat or flushes the pending count and writes the message, and the new state is that of the step function whose runs lose nothing |
| LogRepeats.Logger.FlushRepeats | src/core/log.cpp:284-292 | writes the pending count, if any, as one record |
| LogRepeats.NothingIsLostIff | src/core/log.cpp:383-411 | expanding the records and the pending count gives back exactly the messages logged if and only if the first message is not swallowed, or nothing but swallowed messages was ever logged |
| LogRepeats.EmptyFirstMessageIsLost | src/core/log.cpp:46-50 | an empty debug message logged first, in the first second of the clock, is lost |
| LogRepeats.WritesAreSpaced | src/core/log.cpp:392-408 | a repeated line is written at most once a window, and every summary counts at least one repeat of the line it follows |
| LogRepeats.HeldBackExactly | src/core/log.cpp:392-408 | once a line was written, a message is held back if and only if it repeats that line within a second of it; any other is written after the count of what was held back |
| TextInput.InputMethodRelay.UpdateTextInputFocus | src/input/text_input.cpp:309-327 | moves every text input to the surface it belongs on, leaving before entering |
| TextInput.InputMethodRelay.UpdateActiveTextInput | src/input/text_input.cpp:329-356 | chooses the first entered and enabled text input and tells the input method when that changes |
| TextInput.InputMethodRelay.SendStateToInputMethod | src/input/text_input.cpp:358-374 | forwards state only when both sides exist |
| TextInput.InputMethodRelay.HandleNewTextInput | src/input/text_input.cpp:185-203 | a text input of another seat is ignored; a new one joins the list and is entered at once if it belongs on the focused surface |
| TextInput.InputMethodRelay.HandleTextInputDestroy | src/input/text_input.cpp:205-208 | the text input leaves the list and another becomes active if it was the active one |
| TextInput.InputMethodRelay.OnTextInputEnable | src/input/text_input.cpp:105-110 | the choice of the active text input is made anew before the enabling client is answered |
| TextInput.InputMethodRelay.OnTextInputDisable | src/input/text_input.cpp:121-125 | the choice of the active text input is made anew without it |
| TextInput.InputMethodRelay.OnTextInputCommit | src/input/text_input.cpp:112-119 | only a commit of the active text input is forwarded |
| TextInput.InputMethodRelay.HandleNewInputMethod | src/input/text_input.cpp:210-230 | a second input method is refused, a first one takes over |
| TextInput.InputMethodRelay.HandleInputMethodDestroy | src/input/text_input.cpp:274-283 | every text input is left and none stays active, without a message to the input method that is gone |
| TextInput.InputMethodRelay.HandleInputMethodCommit | src/input/text_input.cpp:232-252 | edits reach the active text input and no other |
| TextInput.InputMethodRelay.HandleKeyboardFocusChange | src/input/text_input.cpp:302-307 | text inputs of the old client are left, those of the new one entered, and the active one chosen among them |
| TextInput.FocusedHolds | src/input/text_input.cpp:309-327 | moving focus leaves every text input where it belongs and every client correctly told |
| TextInput.ActivatedHolds | src/input/text_input.cpp:329-356 | choosing the active text input restores the whole invariant |
| TextInput.StepKeepsValid | src/input/text_input.cpp:185-307 | every event keeps the invariant |
| TextInput.AlwaysValid | src/input/text_input.cpp:185-356 | over every run exactly the focused client's text inputs are entered, on the focused surface, while there is an input method; the active one is the first enabled of them; enters and leaves alternate; the input method believes one is active exactly when one is |
| TextInput.ActiveHasMethod | src/input/text_input.cpp:232-237 | an active text input belongs to the focused client and has an input method |
| TextInputMessages.EnteredExactly | src/input/text_input.cpp:309-327 | a text input is entered on a surface exactly when that is focused, is its client's, and there is an input method, and its client was told so |
| TextInputMessages.ActiveIsAddressed | src/input/text_input.cpp:329-340 | the active text input is the first that is entered and enabled |
| TextInputMessages.CommitsAreAddressed | src/input/text_input.cpp:112-252 | a commit of the input method is one edit of that text input, a commit of that text input is one state for the input method, and any other commit is passed over |
| TextInputMessages.EveryEditIsAddressed | src/input/text_input.cpp:232-252 | over every run, each edit ever sent went to the text input that was first entered and enabled when the input method committed it |
| TextInputMessages.EveryStateIsAddressed | src/input/text_input.cpp:112-374 | and each state was that of the text input edits then were for, which had committed it or had only just become the one |
| TextInputMessages.FlagsFollowClients | src/input/text_input.cpp:105-125 | enabling and disabling change the flag of their own text input only, and enabling is answered last |
| TextInputMessages.ListFollowsClients | src/input/text_input.cpp:185-208 | a new text input joins the list last and disabled, a destroyed one leaves it, all others stay |
| TextInputMessages.SecondMethodIsRefused | src/input/text_input.cpp:210-230 | only the first input method of the seat is taken |
| Gestures.Gestures.HandleSwipeBegin | src/input/gestures.cpp:441-505 | a locked session only silences; a pointer scroll is left alone; anything else in flight is cancelled first, and then exactly one of the carousel, a block, the overview, a pending swipe or forwarding takes over |
| GestureChoices.BeginPicks | src/input/gestures.cpp:459-505 | which state a swipe begins in, as an if and only if for each of the six, in terms of fingers, the presentation under the cursor, blocked input and the overview |
| GestureChoices.BeginHolds | src/input/gestures.cpp:456-505 | what it takes along, and what clients are told |
| GestureChoices.LockSilences | src/input/gestures.cpp:445-448 | any swipe event of a locked session ends what is in flight without a word |
| GestureChoices.PointerScrollStays | src/input/gestures.cpp:449-451 | swipe events leave a pointer scroll alone |
| Gestures.Gestures.HandleSwipeUpdate | src/input/gestures.cpp:507-680 | forwarded swipes are passed on, pending ones lock an axis after enough travel, and an in-flight one ends when what it was captured for is gone |
| GestureChoices.ShortTravelWaits | src/input/gestures.cpp:537-543 | short of 16 pixels along either axis a pending swipe only adds up its travel |
| GestureChoices.UpdateGoesOn | src/input/gestures.cpp:620-680 | a forwarded swipe is passed on, and any other in flight goes on exactly while what it was captured for is in place |
| Gestures.Gestures.LockAxis | src/input/gestures.cpp:544-617 | captures the preferred output and starts a strip scroll or a switch by the axis of travel, or goes idle when neither is possible |
| GestureChoices.TravelPicks | src/input/gestures.cpp:541-617 | from there on it scrolls if and only if an output with workspaces is preferred, no overview is open, the larger component of the travel lies across the workspace axis and there is a strip; along the axis it is a transition if and only if there is a workspace on the side it heads for and one starts, or else a slide if that starts; and otherwise nothing |
| GestureChoices.TravelHolds | src/input/gestures.cpp:544-617 | the output, workspace, group and pointer it then holds |
| Gestures.Gestures.StartSwitch | src/input/gestures.cpp:577-613 | a transition to an existing neighbour, or else a slide |
| Gestures.Gestures.HandleSwipeEnd | src/input/gestures.cpp:682-746 | every state but a pointer scroll ends idle, and a forwarded swipe is closed for the client with its own cancelled flag |
| GestureChoices.EndFinishes | src/input/gestures.cpp:682-746 | lifting the fingers leaves nothing captured, and tells clients of a forwarded swipe whether it was cancelled |
| Gestures.Gestures.CancelActive | src/input/gestures.cpp:189-231 | ends what is in flight, telling clients of a forwarded swipe |
| Gestures.Gestures.SilentCancel | src/input/gestures.cpp:399-437 | the same without telling anyone |
| Gestures.Gestures.BeginPointerScroll | src/input/gestures.cpp:353-383 | cancels what is in flight and captures an output and a workspace with a strip, or holds nothing and reports failure |
| GestureChoices.PointerScrollPicks | src/input/gestures.cpp:353-383 | it starts exactly on the row of the open overview under the pointer or on the active workspace, if that has a strip |
| GestureChoices.PointerScrollGoesOn | src/input/gestures.cpp:353-395 | it goes on while its workspace is in place and until it is ended |
| Gestures.Gestures.UpdatePointerScroll | src/input/gestures.cpp:385-389 | a pointer scroll ends when what it was captured for is gone; nothing else is touched |
| Gestures.Gestures.EndPointerScroll | src/input/gestures.cpp:391-395 | ends a pointer scroll and nothing else |
| Gestures.Gestures.OnSceneSwitchDeviceDestroyed | src/input/gestures.cpp:593-601 | only the pointer a scene switch was started with ends it |
| GestureChoices.DestroyedPointerEndsItsTransition | src/input/gestures.cpp:593-601 | exactly the transition that was started with that pointer ends |
| Gestures.Gestures.CancelForOutput | src/input/gestures.cpp:116-132 | drops everything captured on that output without touching anything it owns |
| GestureChoices.RemovalEndsOnlyItsOwn | src/input/gestures.cpp:116-132 | a removed output ends what was captured on it, and leaves everything captured elsewhere |
| Gestures.Gestures.CancelForLayoutChange | src/input/gestures.cpp:134-146 | settles compositor gestures before their layout goes, and leaves a forwarded swipe open |
| GestureChoices.LayoutChangeEnds | src/input/gestures.cpp:134-146 | everything but a forwarded swipe ends |
| Gestures.Gestures.PickSwitchForOverview | src/input/gestures.cpp:148-187 | ends switching, scene switching and the carousel, and nothing else |
| GestureChoices.OverviewEndsSwitching | src/input/gestures.cpp:148-187 | exactly a switch, a transition and a presentation end |
| Gestures.StepKeepsValid | src/input/gestures.cpp:116-746 | every event keeps the invariant |
| Gestures.AlwaysValid | src/input/gestures.cpp:116-746 | over every run forwarded swipes are well bracketed and open exactly while forwarding; scrolling, switching, scene switching and the carousel hold an output that exists, with its workspace or group; the device listener is armed only during a scene switch |
| Gestures.EndedIsIdle | src/input/gestures.cpp:189-231 | ending what is in flight always leaves an idle machine |
| Gestures.DropsNeedALock | src/input/gestures.cpp:399-437 | an end is withheld from clients only by a swipe event of a locked session |
| Gestures.LayoutChangeReleases | src/input/gestures.cpp:134-146 | a layout change leaves nothing of the old layout captured |
| WorkspaceArguments.ParseWorkspaceArg | src/config/keybind_parse.cpp:145-185 | accepts exactly the texts of the grammar: one optional slash with both sides non-empty, quotes at both ends or neither, digits alone only from 1 to 64 |
| WorkspaceArguments.RoundTripIff | src/config/keybind_parse.h:381-385 | an argument printed in the documented syntax parses back to itself if and only if its position exists, or its name is non-empty without a slash or a quote at either end, and its output has no slash |
| WorkspaceArguments.ParsedIsPrintable | src/config/keybind_parse.cpp:145-185 | the parser accepts nothing else |
| WorkspaceArguments.ParsingIsCanonical | src/config/keybind_parse.cpp:145-185 | whatever is accepted is also accepted in the documented syntax, with the same meaning |
| WorkspaceArguments.ReferenceAcceptedExactly | src/config/keybind_parse.cpp:158-183 | which references are accepted: quotes at both ends of a name without quotes, numbers from 1 to 64, and other texts without a quote at either end |
| WorkspaceArguments.OtherSpellings | src/config/keybind_parse.cpp:158-183 | any name may be quoted and any number padded with zeros |
| WorkspaceArguments.SlashDivides | src/config/keybind_parse.cpp:147-157 | a slash divides reference and output, and is the only one |
| ActionGrammar.ParseAction | src/config/keybind_parse.cpp:573-800 | the first row that does not pass decides |
| ActionGrammar.ArgumentNeedsTheName | src/config/keybind_parse.cpp:124-130 | a row can only take an argument from a text that starts with its name |
| ActionGrammar.TheNamedRowDecides | src/config/keybind_parse.cpp:573-800 | in a table with distinct colon-free names only the row the text names has a say |
| ActionGrammar.AtMostOneAccepts | src/config/keybind_parse.cpp:573-800 | at most one row can accept or reject a text |
| ActionGrammar.OrderIsIrrelevant | src/config/keybind_parse.cpp:573-800 | tables with the same rows parse alike in any order |
| ActionGrammar.WorkspaceActionRoundTrip | src/config/keybind_parse.cpp:638-649 | a printed workspace action parses back to itself, whatever else the table holds |
| ActionGrammar.BareNameParses | src/config/keybind_parse.cpp:577-763 | a name alone is an action without an argument, one whose argument may be left out, or the next effect of a cycle, and nothing else |
| ActionGrammar.TextParses | src/config/keybind_parse.cpp:577-731 | commands, outputs, scratchpads and windows are whatever follows the colon; a submap has to have a possible name |
| ActionGrammar.FractionParses | src/config/keybind_parse.cpp:600-616 | fractions are taken exactly from 0.1 to 1 |
| ActionGrammar.FractionChangeParses | src/config/keybind_parse.cpp:617-637 | changes exactly up to 0.9 either way but not 0 |
| ActionGrammar.TabParses | src/config/keybind_parse.cpp:739-751 | tabs exactly by signed 32-bit numbers but 0 |
| ActionGrammar.EffectParses | src/config/keybind_parse.cpp:650-681 | an effect is named up to the first slash and its target after it; a cycle takes no `off`, a cursor effect no target |
| ActionGrammar.DisplayParses | src/config/keybind_parse.cpp:732-738 | the two words for how columns are shown |
| ActionGrammar.ConfirmationParses | src/config/keybind_parse.cpp:752-763 | the one word for quitting at once |
| ActionGrammar.ModeParses | src/config/keybind_parse.cpp:764-800 | every layout mode reads back from its name |
| ActionGrammar.ToggleParses | src/config/keybind_parse.cpp:764-800 | the word for toggling between all of them |
| ActionGrammar.ToggledModesParse | src/config/keybind_parse.cpp:764-800 | and a list of distinct modes reads back from their names with commas between them |

## Left out

- Includes.NestedIsFlat: agreement on kinds is sufficient, not necessary; the exact condition is proved for one regrouping only, because a necessary one over a whole walk is the equation itself.
- Includes.WalkLoadsExactlyReachable: that all names of a file lead to the same includes is sufficient, not necessary; a necessary condition has to speak of which name of each file the walk meets first and of what it has seen by then, which is the walk's result again.
- WorkspaceRules.NoNameIsOmitted: mentioning an output under one name is sufficient; the exact condition is that of WorkspaceRules.OmittedIff.
- Change.Between: parts of the configuration that are only compared are opaque contents; the `ConfigChange` summary for logging compares whole parts and is not modelled.
- WindowRules.ResolveWindowRules: pattern search is an arbitrary predicate.
- OutputSections.AcceptOutput: sections come in the order the parsed table lists them; the other keys of a section are read by the shared field readers.
- EffectUse.ReferencedNames: compiling the programs of the effects in use is not modelled.
- Reloads.AlwaysDescribed: that what the store accepts was read by the modelled readers is a hypothesis, because the readers of all other tables are not modelled.
- EffectPresets.ReadEffectPresets: shader sources, scene parameters and the numbers of a preset are not modelled; whether a scene's table holds only known keys is an input.
- ConfigStore.ConfigStore.LoadConfig: sorting diagnostics is any permutation, their wording and position are reduced to a text, and a file system that changes while one file is being read is not modelled; one that changes between looking for a file and reading it is.
- TextInput.AlwaysValid: assumes new text inputs start disabled and new objects are new; destruction of a focused surface, popups, keyboard grabs and the content of forwarded state are not modelled.
- Gestures.AlwaysValid: pinch and hold forwarding, the travel of a running gesture and the calls into layouts, the overview and presentations are not modelled; their answers are inputs.
- LogRepeats.NothingIsLostIff: speaks of records, not of their rendered text, where a message could imitate a summary; capping of long lines, rotation and console filtering are not modelled.
- Easing.MonotonicEasing.Value: does not distinguish infinities from other non-finite values; transcendental curves and the spring solver are arbitrary functions.
- Bezier.SolveCubicBezier: rounding of doubles is not modelled, here and in the other numeric parts.
- SwipeTracker.SwipeTracker.Push: a double sum is a real sum.
- ActionGrammar.ParseAction: reading a decimal fraction is an arbitrary function; chords and modifiers are not modelled.
- Parsing of TOML text, canonical paths, environment expansion in include paths and source regions: inputs. Declarations are taken in document order, which the code establishes by sorting them.
- Moving subtrees of tables instead of copying them: nested tables are values here.
- Gaps and borders are unbounded integers.
- The diagnostics for duplicate effect declarations.
- The configuration watcher, process control, rendering, scene graph and all calls into wlroots, XKB and libinput.
