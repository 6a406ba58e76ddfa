# sickle_ui `ui_commands` in Dafny

A model of the world commands of sickle_ui's `src/ui_commands.rs`, the
Bevy UI helpers that run against the engine's `World`:

- `RefreshEntityTheme<C>`: picks the theme for an entity. It uses the
  entity's own `Theme<C>`, else the nearest themed ancestor found by
  walking `Parent`, else `Theme::<C>::default()`. It asks that theme for
  a style, using `style(pseudo_states)` when the entity has
  `PseudoStates` and `base_style()` otherwise. It then inserts the
  `DynamicStyle` or removes it. An interactive or animated style also
  gets `Interaction` and pointer tracking (`TrackedInteraction`) where
  they are missing.
- `SetTextSections` and `SetText`: replace the sections of an entity's
  `Text`; entities without `Text` are left alone.
- `SetCursor`: sets the cursor icon of the one primary window, and does
  nothing when there is none or several.
- `named`: gives an entity a `Name`.
- `LogHierarchy`: prints an entity, its component type names
  (simplified, optionally filtered) and, recursively, its children as a
  box-drawn tree.

Modules:

- `Ecs`: entity ids, the component payloads the commands touch, and
  the `{:?}` formatting of entities.
- `ThemeCascade`: theme resolution and the style update, as functions
  over component maps, with their properties.
- `TextCursor`: the text and cursor updates as functions.
- `HierarchyLog`: the printer as functions over a `Tree` snapshot of the
  hierarchy. It covers `split`/`join` and the type-name simplification,
  the padding and pipe columns, and line counts and indentation. It also
  holds the printer's own loops, as methods proved against those
  functions.
- `UiCommands`: the class `World`, one field per component kind. Each
  command is a method that changes only the fields it names and is
  proved against the functions above. The printer reads the hierarchy
  straight from the world and is proved equal to the printer run on the
  world's snapshot.
- `HierarchyExample`: the hierarchy of the printer's documented output
  example, and the exact lines the code prints for it.

The documented output example (`src/ui_commands.rs:250-266`) does not
match what the code prints, and the model follows the code.
`format!("{}  {}══ {} ", …)` puts two spaces before the corner and a
trailing space after the name, where the picture shows no leading spaces
and a trailing `:`. `HierarchyExample.ExampleOutput` states the code's
lines for that hierarchy. Each is the documented line shifted two
columns right and ending in a space instead of `:`.

## Model

| member | source | states |
|---|---|---|
| Ecs.Lookup | src/ui_commands.rs:334 | `world.get::<T>(e)` is `Some` exactly when `e` has the component, and then carries its value |
| Ecs.EntityDebug | src/ui_commands.rs:252-265 | the `{:?}` text of an entity in the format the documented output shows: its index, `v`, and its generation, in decimal, as in `254v2` |
| ThemeCascade.Ancestors | src/ui_commands.rs:354-355 | the `Parent` walk visits nothing exactly when the entity has no `Parent`; otherwise it starts at the parent and stops at an entity without one |
| ThemeCascade.AncestorsLinked | src/ui_commands.rs:354-355 | each entity of the walk but the last has a `Parent`, and it is the next entity of the walk |
| ThemeCascade.AncestorsSuffix | src/ui_commands.rs:354-355 | walking on from the `k`-th ancestor visits exactly the rest of the walk |
| ThemeCascade.FirstThemed | src/ui_commands.rs:354-367 | the loop stops at the first themed entity of the walk (none before it is themed), and runs off the end exactly when none is themed |
| ThemeCascade.ResolveTheme | src/ui_commands.rs:342-381 | the theme the refresh asks for a style: the entity's own `Theme<C>`, else that of the first themed entity of the `Parent` walk, else `Theme::<C>::default()` |
| ThemeCascade.SelectStyle | src/ui_commands.rs:343-350 | the style a theme gives: `style(pseudo_states)` when the entity has `PseudoStates`, `base_style()` otherwise, the same choice the code makes at 357-364 and 372-379 |
| ThemeCascade.ResolvedStyle | src/ui_commands.rs:334-381 | the style the refresh computes before updating the entity: the resolved theme asked with the entity's `PseudoStates`, if any |
| ThemeCascade.OwnThemeWins | src/ui_commands.rs:342-350 | an entity with its own `Theme<C>` uses it, whatever its ancestors are |
| ThemeCascade.NearestAncestorWins | src/ui_commands.rs:351-368 | without an own theme, the theme is that of the first themed ancestor, whatever lies further up |
| ThemeCascade.DefaultWhenUnthemed | src/ui_commands.rs:370-380 | with no theme on the entity or any ancestor, `Theme::<C>::default()` is used |
| ThemeCascade.Reactive | src/ui_commands.rs:384 | a style is interactive or animated |
| ThemeCascade.ApplyStyle | src/ui_commands.rs:383-399 | no style removes `DynamicStyle` and adds nothing; a style is inserted; `Interaction::default()` and tracking are added only where missing and only for an interactive or animated style; an existing `Interaction` is kept; no other entity changes |
| ThemeCascade.ApplyStyleIdempotent | src/ui_commands.rs:383-399 | applying the same style twice leaves the same components as applying it once |
| TextCursor.WithSections | src/ui_commands.rs:28-38 | an entity with `Text` gets the new sections with the rest of its `Text` kept; without `Text` nothing changes; no other entity changes |
| TextCursor.SingleSection | src/ui_commands.rs:67-87 | the sections `set_text` installs: one `TextSection` of the text with the given style, or `TextStyle::default()` when none is given |
| TextCursor.SetTextOutcome | src/ui_commands.rs:58-88 | after `set_text` an entity with `Text` has exactly one section, with the given text and the given style or `TextStyle::default()`; without `Text` nothing changes |
| TextCursor.WithSectionsLastWins | src/ui_commands.rs:28-38 | setting sections twice is the same as setting the second ones only |
| TextCursor.PrimaryWindows | src/ui_commands.rs:101 | the query matches exactly the windows marked `PrimaryWindow` |
| TextCursor.WithCursor | src/ui_commands.rs:100-109 | with exactly one primary window its icon becomes the cursor and its other settings stay; with none or several no window changes; non-primary windows never change |
| TextCursor.WithCursorIdempotent | src/ui_commands.rs:100-109 | setting the cursor twice is the same as setting it once |
| HierarchyLog.IndexOf | src/ui_commands.rs:149 | the search `split` makes for the next separator: the position of an occurrence, or none |
| HierarchyLog.IndexOfFirst | src/ui_commands.rs:149 | the separator search finds an occurrence, the leftmost one, and finds none only when there is none |
| HierarchyLog.Split | src/ui_commands.rs:149 | `split` always yields at least one piece, so `.last().unwrap()` and `.next().unwrap()` never panic |
| HierarchyLog.SplitPiecesFree | src/ui_commands.rs:149 | no piece of a split contains the separator |
| HierarchyLog.SplitJoin | src/ui_commands.rs:149 | joining the pieces of a split with the separator gives back the string |
| HierarchyLog.JoinSplit | src/ui_commands.rs:149 | splitting a join gives back the parts when no part holds the separator's first character |
| HierarchyLog.LastSegment | src/ui_commands.rs:149-160 | `.split("::").last().unwrap()`: the last piece of a `::` split |
| HierarchyLog.LastSegmentSuffix | src/ui_commands.rs:149 | the last `::` segment is a suffix of the name holding no `::`, and it is either the whole name or directly preceded by `::` |
| HierarchyLog.SimplifyPath | src/ui_commands.rs:148-164 | a plain type path `a::b::C` is shown as `C` |
| HierarchyLog.SimplifyGeneric | src/ui_commands.rs:151-162 | a generic type `a::F<b::G>` is shown as `F<G>` |
| HierarchyLog.SimplifyNested | src/ui_commands.rs:151-162 | a nested generic `a::F<b::G<…` is shown as `F<G`: the text after the second `<` is dropped |
| HierarchyLog.SimplifyName | src/ui_commands.rs:148-164 | the shown name of a component: the last `::` segment, or, for a name holding `<`, the last segment before the first `<`, a `<`, and the last segment of the text between the first and second `<` |
| HierarchyLog.SimplifyOneAngle | src/ui_commands.rs:151-162 | a name with exactly one `<`, `a<b`, is shown as the last segments of `a` and `b` joined by `<` |
| HierarchyLog.SimplifyTwoAngles | src/ui_commands.rs:151-162 | a name with two or more `<`, `a<b<rest`, is shown as the last segments of `a` and `b` joined by `<`, whatever `rest` is |
| HierarchyLog.SimpleNames | src/ui_commands.rs:147-166 | the shown names of the kept components, one per component, in order |
| HierarchyLog.Kept | src/ui_commands.rs:137-146 | without a filter every component is listed; with one, no more than there are |
| HierarchyLog.KeptMembers | src/ui_commands.rs:140-146 | a component is listed exactly when the entity has it and it passes the filter |
| HierarchyLog.Join | src/ui_commands.rs:179 | the parts joined with the separator between consecutive parts |
| HierarchyLog.PaddingParts | src/ui_commands.rs:169-177 | `padding_parts`: the segments for `i` in `0..level`, in order |
| HierarchyLog.PaddingSegment | src/ui_commands.rs:171-176 | the four columns of padding segment `i`: `"  ║ "` when `i > 0` and `i - 1` is traced, four spaces otherwise |
| HierarchyLog.Padding | src/ui_commands.rs:169-179 | the padding of a line at `level`: its `level` segments, joined with nothing between them |
| HierarchyLog.PaddingLayout | src/ui_commands.rs:169-179 | the padding is `level` four-column segments, and segment `i` shows a vertical line exactly when `i > 0` and `i - 1` is in the trace |
| HierarchyLog.PaddingIgnoresDeeper | src/ui_commands.rs:170-177 | trace entries at level `level - 1` or deeper do not change the padding of a line at `level` |
| HierarchyLog.Prefix | src/ui_commands.rs:168 | the corner of an entity's line: `╚` for the last entry, `╠` otherwise |
| HierarchyLog.EntityLabel | src/ui_commands.rs:180-183 | `[<id>] <name>` for an entity with a `Name`, `Entity <id>` otherwise |
| HierarchyLog.EntityLine | src/ui_commands.rs:184 | an entity's line: the padding, two spaces, the corner, `══ `, the label and a trailing space |
| HierarchyLog.ChildPipe | src/ui_commands.rs:191-203 | the 13 columns before a component's pipe: a line for the entity's next sibling unless it is the last entry, and a line down to its children when it has any |
| HierarchyLog.ComponentPipe | src/ui_commands.rs:189-190 | `└` for the last listed component, `├` for the others |
| HierarchyLog.ComponentLine | src/ui_commands.rs:204-207 | the line of component `i`: the padding, the child pipe, the component pipe, `── ` and the shown name |
| HierarchyLog.ComponentLines | src/ui_commands.rs:188-208 | one component line per shown component, in order |
| HierarchyLog.ChildTrace | src/ui_commands.rs:215-219 | the trace handed to a child: the parent's trace, with the parent's level added for every child but the last |
| HierarchyLog.EntityLines | src/ui_commands.rs:131-208 | the lines of an entity itself: its line, then one line per shown component, with the child pipe for its sibling position and whether it has children |
| HierarchyLog.Render | src/ui_commands.rs:130-229 | the lines `LogHierarchy::apply` emits for a subtree: the entity's own lines, then those of its children |
| HierarchyLog.ChildrenLines | src/ui_commands.rs:210-229 | the lines of the first `k` children, each printed at `level + 1`, the last closing the branch and the others adding `level` to the trace |
| HierarchyLog.LogHierarchyLines | src/ui_commands.rs:271-276 | `log_hierarchy` starts the printer at level 0, as the last entry, with an empty trace |
| HierarchyLog.RenderLineCount | src/ui_commands.rs:184-228 | the printer emits one line per entity plus one per listed component, whatever the level, sibling position and trace it starts with |
| HierarchyLog.RenderIndented | src/ui_commands.rs:168-228 | every line printed for a subtree starts with that subtree's padding |
| HierarchyLog.ChildrenIndented | src/ui_commands.rs:210-228 | every line printed for an entity's children starts with the padding of the children's level under the entity's own trace |
| HierarchyLog.EntityLinesBranch | src/ui_commands.rs:168-203 | in an entity's own lines, the third column of its own segment holds its corner, then `║` on each component line when it has a next sibling and a blank when it is the last |
| HierarchyLog.ChildrenBranch | src/ui_commands.rs:170-228 | every line printed for an entity's children shows, in the third column of the entity's own segment, `║` when the entity's parent level is traced and a blank otherwise |
| HierarchyLog.RenderBranch | src/ui_commands.rs:168-228 | for an entity whose parent level is traced exactly when it is not the last child, the third column of its segment shows its corner on its own line, then `║` on every further line of its subtree when it has a next sibling, blanks when it is the last |
| HierarchyLog.ChildBranch | src/ui_commands.rs:184-228 | in every line of a child's subtree, the child's branch column shows `╠` then `║` when more siblings follow, and `╚` then blanks for the last child, provided the parent's trace does not hold the parent's own level (see `TraceBelow`) |
| HierarchyLog.TraceBelow | src/ui_commands.rs:216-219 | when every trace entry is below the entity's level, the entity's level is not traced, and its children's trace again holds only levels below theirs; `log_hierarchy`'s empty trace starts this off |
| HierarchyLog.RootChildBranch | src/ui_commands.rs:213-228 | for the children of the entity `log_hierarchy` prints, the branch column shows `╠` then `║` through a non-last child's subtree, and `╚` then blanks through the last one's |
| HierarchyLog.RootLine | src/ui_commands.rs:271-276 | `log_hierarchy` starts with the root's line: no padding, the `╚` corner, its label and a trailing space |
| HierarchyLog.BuildPadding | src/ui_commands.rs:169-179 | the padding loop builds the padding of the given level and trace |
| HierarchyLog.BuildComponentLines | src/ui_commands.rs:188-208 | the component loop builds one line per listed component, each with the padding, the child pipe for the entity's position and children, and `└` on the last only |
| HierarchyExample.ExampleOutput | src/ui_commands.rs:250-266 | for the documented hierarchy the printer emits the documented picture, each line two columns further right and ending in a space where the picture shows `:` |
| UiCommands.World.Snapshot | src/ui_commands.rs:131-138 | the printer's view of an entity is its id, `Name`, `inspect_entity` components and one subtree per listed child |
| UiCommands.World.ChildrenOf | src/ui_commands.rs:131-134 | the entities listed by the entity's `Children`, none when it has no `Children` |
| UiCommands.World.RefreshEntityTheme | src/ui_commands.rs:333-400 | the refresh changes the style components exactly as the update prescribes for the resolved style, and nothing else |
| UiCommands.World.ResolveStyle | src/ui_commands.rs:334-381 | the loop over `Parent` returns the style of the own theme, else the nearest themed ancestor, else the default theme |
| UiCommands.World.UpdateStyle | src/ui_commands.rs:383-399 | the inserts and the removal leave exactly the components the update prescribes |
| UiCommands.World.SetTextSections | src/ui_commands.rs:28-38 | `Text` becomes what the section update prescribes; nothing else changes |
| UiCommands.World.SetText | src/ui_commands.rs:58-68 | `Text` becomes the one-section update of the text with the given or default style |
| UiCommands.World.SetCursor | src/ui_commands.rs:100-109 | the windows become what the cursor update prescribes, with the `!=` guard not changing the result |
| UiCommands.World.Named | src/ui_commands.rs:299-301 | the entity's `Name` becomes the new name, no other name changes, and the printer shows it from then on |
| UiCommands.World.LogHierarchy | src/ui_commands.rs:267-278 | `log_hierarchy` emits the printer's lines for the entity's snapshot, started at level 0 as the last entry with an empty trace |
| UiCommands.World.LogEntity | src/ui_commands.rs:130-230 | one run of `LogHierarchy::apply` emits exactly the printer's lines for the entity's subtree |
| UiCommands.World.LogEntityLines | src/ui_commands.rs:131-208 | the entity's own line and its component lines are the printer's lines for the entity itself |
| UiCommands.World.LogChildren | src/ui_commands.rs:210-229 | the children loop emits the printer's lines of all children, in `Children` order |
| UiCommands.World.LogChild | src/ui_commands.rs:221-227 | the recursive call for child `i` emits the printer's lines for that child's subtree |

## Left out

- `ResetChildrenInUiSurface` (`src/ui_commands.rs:281-291`) is not part of this model: it hands `Children` to the layout engine's `UiSurface`, whose state is outside the world modelled here.
- The extension-trait methods (`set_text_sections`, `set_text`, `set_cursor`, `log_hierarchy`, `refresh_theme`) only queue a command. The model runs the command's `apply` directly; the deferred command queue is not modelled. The arguments these methods give the command are modelled (`unwrap_or_default` in `set_text`, the level-0 start in `log_hierarchy`).
- Logging: the `warn!` calls are dropped, and the `info!` lines are returned as a sequence of strings.
- `Theme<C>` and `DynamicStyle` internals belong to the theme layer. `style`, `base_style`, `is_interactive`, `is_animated` and `Theme::<C>::default()` are arbitrary functions (`ThemeOps`), so every property holds for any theme layer.
- `TrackedInteraction` is modelled only by its `FluxInteraction` part, as the set of entities carrying it. The presence check on line 389 is what decides whether it is inserted. The bundle's other components are not modelled.
- UiCommands.World.SetCursor: Bevy change detection is not modelled. Writing an equal icon would leave the same value, so the `!=` guard has no observable effect here.
- Component payloads (`Theme`, `PseudoStates`, `DynamicStyle`, `TextStyle`, the rest of `Text` and `Window`) are opaque types. `ComponentInfo` is reduced to its type name, which is all the printer reads. The caller's filter is a function of `ComponentInfo`, so in the model it sees only the name; a filter that tells components apart by their other fields (id, size, storage type) is not modelled.
- The `components` field (what `inspect_entity` lists) is not tied to the typed component fields. Nothing states that an entity with `Text` lists `Text`.
- The theme walk uses `Parent`, and the printer uses `Children`. The model does not require the two to agree.
- UiCommands.World.ResolveStyle: requires the whole `Parent` map to be acyclic, witnessed by a ghost depth map, since an acyclic engine hierarchy is assumed. The source loops forever only when the walk from an entity without its own theme enters a `Parent` cycle before it meets a themed entity; a cycle elsewhere does not affect it.
- UiCommands.World.LogEntity: requires the `Children` links to be acyclic and to list live entities, and every live entity to be inspectable (`Printable`). The model requires this of the whole map, since an acyclic engine hierarchy is assumed. The source recurses without end only on a cycle reachable through `Children` from the printed entity, and calls `inspect_entity` only on reachable children, where a despawned one panics. It demands nothing of `Parent`, which the printer never reads.
- UiCommands.World.RefreshEntityTheme: requires a live entity, since `world.entity_mut` panics on a despawned one. It also requires the `Parent` links to be acyclic, which `ResolveStyle` needs. It demands nothing of `Children`, which the refresh never reads.
- UiCommands.World.Named: requires a live entity; inserting into a despawned one panics.
- Entity `{:?}` formatting belongs to the engine. The printer is proved for any formatter (`debug: Entity -> string`), and the world's methods use `Ecs.EntityDebug`, `<index>v<generation>` as the documented example shows it. The engine's own `Debug` for `Entity` may print more (such as the entity's bits); that is not modelled.
- `usize` is modelled as `nat`. No subtraction in the printer can go below zero: `i - 1` is guarded by `i > 0`, and `len() - 1` is only taken inside a loop over a non-empty vector.
- The filter is a pure function of `ComponentInfo`.
- The examples and `ui_builder.rs` are not part of this model.
