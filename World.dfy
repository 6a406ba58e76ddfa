/** The commands of `ui_commands.rs` as operations on the engine's world.
    The world holds one field per component kind the commands read or
    write; each command is a method that changes only the fields it names,
    proved against the functions of `ThemeCascade`, `TextCursor` and
    `HierarchyLog`. */
module UiCommands {
  import opened Ecs
  import opened ThemeCascade
  import opened TextCursor
  import opened HierarchyLog

  /** `children` only lists live entities, and `height` witnesses that
      following `Children` ends: every child is strictly lower than its parent. */
  ghost predicate ChildrenRanked(entities: set<Entity>, children: map<Entity, seq<Entity>>, height: map<Entity, nat>) {
    forall e | e in children :: e in height && ChildrenBelow(entities, children[e], height, height[e])
  }

  ghost predicate ChildrenBelow(entities: set<Entity>, kids: seq<Entity>, height: map<Entity, nat>, h: nat) {
    forall c | c in kids :: c in entities && c in height && height[c] < h
  }

  function HeightOf(height: map<Entity, nat>, e: Entity): nat {
    if e in height then height[e] else 0
  }

  class World {
    /** The live entities. */
    var entities: set<Entity>
    /** `Parent`. */
    var parent: map<Entity, Entity>
    /** `Children`, in order. */
    var children: map<Entity, seq<Entity>>
    /** `Name`. */
    var names: map<Entity, string>
    /** What `inspect_entity` reports for each live entity, in order. */
    var components: map<Entity, seq<ComponentInfo>>
    /** `Text`. */
    var texts: map<Entity, Text>
    /** `Theme<C>` for the component type `C` being refreshed. */
    var themes: map<Entity, Theme>
    /** `PseudoStates`. */
    var pseudoStates: map<Entity, PseudoStates>
    /** `DynamicStyle`. */
    var styles: map<Entity, DynamicStyle>
    /** `Interaction`. */
    var interactions: map<Entity, Interaction>
    /** The entities carrying `FluxInteraction`. */
    var tracked: set<Entity>
    /** `Window`. */
    var windows: map<Entity, Window>
    /** The entities marked `PrimaryWindow`. */
    var primary: set<Entity>
    ghost var depth: map<Entity, nat>
    ghost var height: map<Entity, nat>

    /** What the hierarchy printer relies on: `Children` has no cycles and
        lists only live entities, and every live entity can be inspected. */
    ghost predicate Printable()
      reads this`entities, this`children, this`height, this`components
    {
      ChildrenRanked(entities, children, height) && entities <= components.Keys
    }

    /** The part of the world `LogHierarchy` reads for `e` and its descendants. */
    ghost function Snapshot(e: Entity): (t: Tree)
      reads this`entities, this`children, this`height, this`names, this`components
      requires Printable()
      requires e in entities
      ensures t.id == e && t.name == Lookup(names, e) && t.components == components[e]
      ensures |t.children| == |ChildrenOf(e)|
      decreases HeightOf(height, e), 1
    {
      Tree(e, Lookup(names, e), components[e], Forest(ChildrenOf(e), HeightOf(height, e)))
    }

    /** The entities listed by `e`'s `Children`, none when it has none. */
    function ChildrenOf(e: Entity): seq<Entity>
      reads this`children
    {
      if e in children then children[e] else []
    }

    /** The snapshots of `kids`, in order. */
    ghost function Forest(kids: seq<Entity>, h: nat): (r: seq<Tree>)
      reads this`entities, this`children, this`height, this`names, this`components
      requires Printable()
      requires ChildrenBelow(entities, kids, height, h)
      ensures |r| == |kids|
      decreases h, 0, |kids|
    {
      if kids == [] then [] else [Snapshot(kids[0])] + Forest(kids[1..], h)
    }

    /** The `i`-th snapshot of a forest is the snapshot of the `i`-th entity. */
    lemma {:induction false} ForestAt(kids: seq<Entity>, h: nat, i: nat)
      requires Printable()
      requires ChildrenBelow(entities, kids, height, h)
      requires i < |kids|
      ensures Forest(kids, h)[i] == Snapshot(kids[i])
      decreases i
    {
      if i > 0 {
        ForestAt(kids[1..], h, i - 1);
      }
    }

    /** `RefreshEntityTheme<C>::apply`: resolve the theme (own, nearest
        themed ancestor, or default), ask it for a style, and update the
        entity's components with it. */
    method RefreshEntityTheme(entity: Entity, ops: ThemeOps)
      requires Ranked(parent, depth) && entity in entities
      modifies this`styles, this`interactions, this`tracked
      ensures StyleState(styles, interactions, tracked)
              == ApplyStyle(old(StyleState(styles, interactions, tracked)), entity,
                            ResolvedStyle(ops, themes, parent, depth, pseudoStates, entity), ops)
    {
      var style := ResolveStyle(entity, ops);
      UpdateStyle(entity, style, ops);
    }

    /** The first half of the refresh command: the style of the entity's
        own theme, else of the nearest themed ancestor found by walking
        `Parent`, else of the default theme; `style(pseudo_states)` when the
        entity has `PseudoStates`, `base_style()` otherwise. */
    method ResolveStyle(entity: Entity, ops: ThemeOps) returns (style: Option<DynamicStyle>)
      requires Ranked(parent, depth)
      ensures style == ResolvedStyle(ops, themes, parent, depth, pseudoStates, entity)
    {
      var pseudo := Lookup(pseudoStates, entity);
      if entity in themes {
        style := SelectStyle(ops, themes[entity], pseudo);
        return;
      }
      var found := false;
      var current := entity;
      ghost var walked: seq<Entity> := [];
      style := None;
      while current in parent
        invariant Ancestors(parent, depth, entity) == walked + Ancestors(parent, depth, current)
        invariant forall j | 0 <= j < |walked| :: walked[j] !in themes
        invariant !found
        decreases DepthOf(depth, current)
      {
        var next := parent[current];
        assert Ancestors(parent, depth, current) == [next] + Ancestors(parent, depth, next);
        AppendAssociative(walked, [next], Ancestors(parent, depth, next));
        current := next;
        walked := walked + [current];
        if current in themes {
          style := SelectStyle(ops, themes[current], pseudo);
          found := true;
          break;
        }
      }
      if found {
        NearestAncestorWins(themes, parent, depth, entity, ops.defaultTheme, |walked| - 1);
      } else {
        DefaultWhenUnthemed(themes, parent, depth, entity, ops.defaultTheme);
        style := SelectStyle(ops, ops.defaultTheme, pseudo);
      }
    }

    /** The second half of the refresh command: insert the style, with
        `Interaction` and `TrackedInteraction` where missing when it is
        interactive or animated, or remove `DynamicStyle` when there is none. */
    method UpdateStyle(entity: Entity, style: Option<DynamicStyle>, ops: ThemeOps)
      modifies this`styles, this`interactions, this`tracked
      ensures StyleState(styles, interactions, tracked)
              == ApplyStyle(old(StyleState(styles, interactions, tracked)), entity, style, ops)
    {
      match style
      case Some(s) =>
        if ops.isInteractive(s) || ops.isAnimated(s) {
          styles := styles[entity := s];
          if entity !in interactions {
            interactions := interactions[entity := InteractionNone];
          }
          if entity !in tracked {
            tracked := tracked + {entity};
          }
        } else {
          styles := styles[entity := s];
        }
      case None =>
        styles := styles - {entity};
    }

    /** `SetTextSections::apply`. */
    method SetTextSections(entity: Entity, sections: seq<TextSection>)
      modifies this`texts
      ensures texts == WithSections(old(texts), entity, sections)
    {
      if entity in texts {
        texts := texts[entity := texts[entity].(sections := sections)];
      }
    }

    /** `set_text` followed by `SetText::apply`; `defaultStyle` is
        `TextStyle::default()`. */
    method SetText(entity: Entity, text: string, style: Option<TextStyle>, defaultStyle: TextStyle)
      modifies this`texts
      ensures texts == WithSections(old(texts), entity, SingleSection(text, style, defaultStyle))
    {
      var textStyle := style.GetOr(defaultStyle);
      if entity in texts {
        texts := texts[entity := texts[entity].(sections := [TextSection(text, textStyle)])];
      }
    }

    /** `SetCursor::apply`. */
    method SetCursor(cursor: CursorIcon)
      modifies this`windows
      ensures windows == WithCursor(old(windows), primary, cursor)
    {
      var matching := set w | w in windows && w in primary;
      assert matching == PrimaryWindows(windows, primary);
      if |matching| == 1 {
        var w :| w in matching;
        SingletonMember(matching, w);
        if windows[w].cursorIcon != cursor {
          windows := windows[w := windows[w].(cursorIcon := cursor)];
        } else {
          assert windows[w].(cursorIcon := cursor) == windows[w];
          assert windows[w := windows[w]] == windows;
        }
      }
    }

    /** `named`: the entity's `Name` becomes `name`, which is the name the
        hierarchy printer shows for it from then on. */
    method Named(entity: Entity, name: string)
      requires entity in entities
      modifies this`names
      ensures names == old(names)[entity := name]
      ensures Printable() ==>
                Snapshot(entity).name == Some(name)
    {
      names := names[entity := name];
    }

    /** `log_hierarchy`: the printer started at level 0 as the last entry
        with an empty trace; `{:?}` of an entity is `EntityDebug`. */
    method LogHierarchy(id: Entity, filter: Option<ComponentInfo -> bool>) returns (lines: seq<string>)
      requires Printable() && id in entities
      ensures lines == LogHierarchyLines(Snapshot(id), filter, EntityDebug)
    {
      lines := LogEntity(id, 0, true, [], filter);
    }

    /** `LogHierarchy::apply` for the entity `id`: its line, its component
        lines, then the lines of each child, read from the world. */
    method LogEntity(id: Entity, level: nat, isLast: bool, trace: seq<nat>, filter: Option<ComponentInfo -> bool>)
      returns (lines: seq<string>)
      requires Printable() && id in entities
      ensures lines == Render(Snapshot(id), level, isLast, trace, filter, EntityDebug)
      decreases HeightOf(height, id), 2
    {
      var hasChildren := id in children && |children[id]| > 0;
      var own := LogEntityLines(id, level, isLast, trace, filter, hasChildren);
      var rest := LogChildren(id, level, trace, filter);
      lines := own + rest;
    }

    /** The children loop of `LogHierarchy::apply`: each child of `id` in
        order, the last one closing the branch, the others adding `level`
        to the trace. */
    method LogChildren(id: Entity, level: nat, trace: seq<nat>, filter: Option<ComponentInfo -> bool>)
      returns (lines: seq<string>)
      requires Printable() && id in entities
      ensures lines == ChildrenLines(Snapshot(id), level, trace, filter, EntityDebug, |Snapshot(id).children|)
      decreases HeightOf(height, id), 1
    {
      var childrenIds: seq<Entity> := [];
      if id in children {
        childrenIds := children[id];
      }
      ghost var t := Snapshot(id);
      lines := [];
      for i := 0 to |childrenIds|
        invariant lines == ChildrenLines(t, level, trace, filter, EntityDebug, i)
      {
        var isLastChild := i == |childrenIds| - 1;
        var traceLevels := trace;
        if !isLastChild {
          traceLevels := traceLevels + [level];
        }
        var childLines := LogChild(id, i, level + 1, isLastChild, traceLevels, filter);
        ExtendChildren(t, level, trace, filter, EntityDebug, i, lines, isLastChild, traceLevels, childLines);
        lines := lines + childLines;
      }
    }

    /** The recursive `.apply(child, world)` for the `i`-th child of `id`. */
    method LogChild(id: Entity, i: nat, level: nat, isLast: bool, trace: seq<nat>, filter: Option<ComponentInfo -> bool>)
      returns (lines: seq<string>)
      requires Printable() && id in entities && id in children && i < |children[id]|
      ensures lines == Render(Snapshot(id).children[i], level, isLast, trace, filter, EntityDebug)
      decreases HeightOf(height, id), 0
    {
      var child := children[id][i];
      assert child in children[id];
      ForestAt(children[id], HeightOf(height, id), i);
      lines := LogEntity(child, level, isLast, trace, filter);
    }

    /** The lines `LogHierarchy::apply` prints for `id` itself: its line,
        then its component lines. */
    method LogEntityLines(id: Entity, level: nat, isLast: bool, trace: seq<nat>, filter: Option<ComponentInfo -> bool>, hasChildren: bool)
      returns (lines: seq<string>)
      requires Printable() && id in entities
      requires hasChildren <==> |ChildrenOf(id)| > 0
      ensures lines == EntityLines(Snapshot(id), level, isLast, trace, filter, EntityDebug)
    {
      var debugInfos := SimpleNames(Kept(components[id], filter));
      var prefix := if isLast then "╚" else "╠";
      var padding := BuildPadding(level, trace);
      var name := match Lookup(names, id)
        case Some(n) => "[" + EntityDebug(id) + "] " + n
        case None => "Entity " + EntityDebug(id);
      var componentLines := BuildComponentLines(padding, isLast, hasChildren, debugInfos);
      lines := [padding + ("  " + prefix + "══ " + name + " ")] + componentLines;
    }
  }
}
