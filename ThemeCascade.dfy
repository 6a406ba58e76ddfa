/** How `RefreshEntityTheme<C>` picks a theme and a style for an entity, and
    what inserting or removing that style does to the entity's components,
    stated as functions over the component maps. */
module ThemeCascade {
  import opened Ecs

  /** The operations of `Theme<C>` and `DynamicStyle` the refresh command
      calls. They are defined by the theme layer, so here they are
      uninterpreted: any functions at all. `defaultTheme` is
      `Theme::<C>::default()`. */
  datatype ThemeOps = ThemeOps(
    style: (Theme, PseudoStates) -> Option<DynamicStyle>,
    baseStyle: Theme -> Option<DynamicStyle>,
    isInteractive: DynamicStyle -> bool,
    isAnimated: DynamicStyle -> bool,
    defaultTheme: Theme)

  /** `depth` witnesses that following `Parent` links ends: every parent is
      strictly shallower than its child. */
  ghost predicate Ranked(parent: map<Entity, Entity>, depth: map<Entity, nat>) {
    forall e | e in parent :: e in depth && parent[e] in depth && depth[parent[e]] < depth[e]
  }

  function DepthOf(depth: map<Entity, nat>, e: Entity): nat {
    if e in depth then depth[e] else 0
  }

  /** The strict ancestors of `e`, nearest first: the entities the `Parent`
      walk visits, up to one that has no parent. */
  function Ancestors(parent: map<Entity, Entity>, depth: map<Entity, nat>, e: Entity): (r: seq<Entity>)
    requires Ranked(parent, depth)
    ensures r == [] <==> e !in parent
    ensures r != [] ==> r[0] == parent[e] && r[|r| - 1] !in parent
    decreases DepthOf(depth, e)
  {
    if e in parent then [parent[e]] + Ancestors(parent, depth, parent[e]) else []
  }

  /** The position of the first entity of `chain` that carries a theme. */
  function FirstThemed(themes: map<Entity, Theme>, chain: seq<Entity>): (r: Option<nat>)
    ensures r.Some? ==> r.value < |chain| && chain[r.value] in themes
    ensures r.Some? ==> forall j | 0 <= j < r.value :: chain[j] !in themes
    ensures r.None? <==> forall j | 0 <= j < |chain| :: chain[j] !in themes
  {
    if chain == [] then None
    else if chain[0] in themes then Some(0)
    else match FirstThemed(themes, chain[1..])
      case None => None
      case Some(i) => Some(i + 1)
  }

  /** The theme the refresh command resolves for `e`: its own if it has one,
      otherwise that of its nearest themed ancestor, otherwise `fallback`. */
  function ResolveTheme(themes: map<Entity, Theme>, parent: map<Entity, Entity>, depth: map<Entity, nat>,
                        e: Entity, fallback: Theme): Theme
    requires Ranked(parent, depth)
  {
    if e in themes then themes[e]
    else
      var chain := Ancestors(parent, depth, e);
      match FirstThemed(themes, chain)
      case Some(i) => themes[chain[i]]
      case None => fallback
  }

  /** The style asked of `theme`: `style(pseudo_states)` when the entity has
      `PseudoStates`, `base_style()` when it does not. */
  function SelectStyle(ops: ThemeOps, theme: Theme, pseudo: Option<PseudoStates>): Option<DynamicStyle> {
    match pseudo
    case Some(p) => ops.style(theme, p)
    case None => ops.baseStyle(theme)
  }

  /** The style the refresh command computes for `e` before touching the world. */
  function ResolvedStyle(ops: ThemeOps, themes: map<Entity, Theme>, parent: map<Entity, Entity>,
                         depth: map<Entity, nat>, pseudoStates: map<Entity, PseudoStates>, e: Entity): Option<DynamicStyle>
    requires Ranked(parent, depth)
  {
    SelectStyle(ops, ResolveTheme(themes, parent, depth, e, ops.defaultTheme), Lookup(pseudoStates, e))
  }

  /** A style that needs pointer tracking. */
  predicate Reactive(ops: ThemeOps, s: DynamicStyle) {
    ops.isInteractive(s) || ops.isAnimated(s)
  }

  /** The components the refresh command may change: `DynamicStyle`,
      `Interaction`, and the entities carrying `FluxInteraction` (inserted
      as part of the `TrackedInteraction` bundle). */
  datatype StyleState = StyleState(
    styles: map<Entity, DynamicStyle>,
    interactions: map<Entity, Interaction>,
    tracked: set<Entity>)

  /** The component update at the end of the refresh command for entity `e`
      and resolved style `style`. */
  function ApplyStyle(st: StyleState, e: Entity, style: Option<DynamicStyle>, ops: ThemeOps): (r: StyleState)
    // no other entity is touched
    ensures forall x | x != e :: (x in r.styles <==> x in st.styles) && (x in r.interactions <==> x in st.interactions)
    ensures forall x | x != e && x in r.styles :: r.styles[x] == st.styles[x]
    ensures forall x | x != e && x in r.interactions :: r.interactions[x] == st.interactions[x]
    ensures forall x | x != e :: x in r.tracked <==> x in st.tracked
    // no style: DynamicStyle removed, nothing inserted
    ensures style.None? ==> e !in r.styles && r.interactions == st.interactions && r.tracked == st.tracked
    // a style: inserted
    ensures style.Some? ==> e in r.styles && r.styles[e] == style.value
    // an existing Interaction is left as it is
    ensures e in st.interactions ==> e in r.interactions && r.interactions[e] == st.interactions[e]
    // Interaction and tracking are added only for an interactive or animated style
    ensures e !in st.interactions ==>
              (e in r.interactions <==> style.Some? && Reactive(ops, style.value))
    ensures e !in st.interactions && e in r.interactions ==> r.interactions[e] == InteractionNone
    ensures e in r.tracked <==> e in st.tracked || (style.Some? && Reactive(ops, style.value))
  {
    match style
    case None => st.(styles := st.styles - {e})
    case Some(s) =>
      if Reactive(ops, s) then
        StyleState(
          st.styles[e := s],
          if e in st.interactions then st.interactions else st.interactions[e := InteractionNone],
          if e in st.tracked then st.tracked else st.tracked + {e})
      else
        st.(styles := st.styles[e := s])
  }

  /** The entity's own theme wins: the hierarchy is never consulted, so any
      other parent links give the same theme. */
  lemma OwnThemeWins(themes: map<Entity, Theme>, parent: map<Entity, Entity>, depth: map<Entity, nat>,
                     parent': map<Entity, Entity>, depth': map<Entity, nat>, e: Entity, fallback: Theme)
    requires Ranked(parent, depth) && Ranked(parent', depth')
    requires e in themes
    ensures ResolveTheme(themes, parent, depth, e, fallback) == themes[e]
    ensures ResolveTheme(themes, parent, depth, e, fallback) == ResolveTheme(themes, parent', depth', e, fallback)
  {
  }

  /** Without an own theme, the resolved theme is that of the first themed
      entity met walking up `Parent`, whatever themes lie further up. */
  lemma NearestAncestorWins(themes: map<Entity, Theme>, parent: map<Entity, Entity>, depth: map<Entity, nat>,
                            e: Entity, fallback: Theme, i: nat)
    requires Ranked(parent, depth)
    requires e !in themes
    requires i < |Ancestors(parent, depth, e)| && Ancestors(parent, depth, e)[i] in themes
    requires forall j | 0 <= j < i :: Ancestors(parent, depth, e)[j] !in themes
    ensures ResolveTheme(themes, parent, depth, e, fallback) == themes[Ancestors(parent, depth, e)[i]]
  {
  }

  /** With no theme on the entity or on any ancestor, the default theme is used. */
  lemma DefaultWhenUnthemed(themes: map<Entity, Theme>, parent: map<Entity, Entity>, depth: map<Entity, nat>,
                            e: Entity, fallback: Theme)
    requires Ranked(parent, depth)
    requires e !in themes
    requires forall a | a in Ancestors(parent, depth, e) :: a !in themes
    ensures ResolveTheme(themes, parent, depth, e, fallback) == fallback
  {
  }

  /** Walking `k` steps up from `e` and then on from there visits the same
      entities as walking up from `e`: the ancestors of the `k`-th ancestor
      are exactly the rest of the chain. */
  lemma {:induction false} AncestorsSuffix(parent: map<Entity, Entity>, depth: map<Entity, nat>, e: Entity, k: nat)
    requires Ranked(parent, depth)
    requires k < |Ancestors(parent, depth, e)|
    ensures Ancestors(parent, depth, Ancestors(parent, depth, e)[k]) == Ancestors(parent, depth, e)[k + 1..]
    decreases k
  {
    var p := parent[e];
    assert Ancestors(parent, depth, e) == [p] + Ancestors(parent, depth, p);
    if k > 0 {
      AncestorsSuffix(parent, depth, p, k - 1);
    }
  }

  /** Each entity of the chain but the last has a parent, and that parent is
      the next entity of the chain. */
  lemma AncestorsLinked(parent: map<Entity, Entity>, depth: map<Entity, nat>, e: Entity, i: nat)
    requires Ranked(parent, depth)
    requires i + 1 < |Ancestors(parent, depth, e)|
    ensures Ancestors(parent, depth, e)[i] in parent
    ensures parent[Ancestors(parent, depth, e)[i]] == Ancestors(parent, depth, e)[i + 1]
  {
    AncestorsSuffix(parent, depth, e, i);
  }

  /** Applying the same style twice leaves the same components as applying
      it once. */
  lemma ApplyStyleIdempotent(st: StyleState, e: Entity, style: Option<DynamicStyle>, ops: ThemeOps)
    ensures ApplyStyle(ApplyStyle(st, e, style, ops), e, style, ops) == ApplyStyle(st, e, style, ops)
  {
  }
}
