/** Values that the ui commands read from and write into the engine's entity
    store. Component payloads whose internals belong to the engine or to the
    theme layer are opaque: the commands only store them, hand them on, or
    (for cursor icons) compare them. */
module Ecs {

  datatype Option<+T> = None | Some(value: T) {
    /** `Option::unwrap_or`: the carried value, or `default` when there is none. */
    function GetOr(default: T): T {
      match this
      case Some(v) => v
      case None => default
    }
  }

  /** An engine entity id. */
  datatype Entity = Entity(index: nat, generation: nat)

  /** `Theme<C>` for the one component type `C` the refresh command is run for. */
  type Theme
  /** `PseudoStates`, the entity's current set of interaction pseudo-states. */
  type PseudoStates
  /** `DynamicStyle`, the style a theme produces for an entity. */
  type DynamicStyle
  /** `TextStyle` (font handle, size and colour). */
  type TextStyle
  /** The parts of `Text` other than its sections (justification, line breaking). */
  type TextLayout
  /** `CursorIcon`; the cursor command compares icons. */
  type CursorIcon(==)
  /** The parts of `Window` other than its cursor icon. */
  type WindowSettings

  /** The engine's pointer-interaction state; `Interaction::default()` is `InteractionNone`. */
  datatype Interaction = Pressed | Hovered | InteractionNone

  datatype TextSection = TextSection(value: string, style: TextStyle)

  datatype Text = Text(sections: seq<TextSection>, layout: TextLayout)

  datatype Window = Window(cursorIcon: CursorIcon, settings: WindowSettings)

  /** The metadata `inspect_entity` reports for one component; the printer
      and its filter only look at the type name. */
  datatype ComponentInfo = ComponentInfo(name: string)

  /** The value of an optional map entry, as `world.get::<T>(entity)` gives it. */
  function Lookup<K, V>(m: map<K, V>, k: K): (r: Option<V>)
    ensures r.Some? <==> k in m
    ensures r.Some? ==> r.value == m[k]
  {
    if k in m then Some(m[k]) else None
  }

  /** `{:?}` of a number. */
  function NatToString(n: nat): (r: string)
    decreases n
  {
    if n < 10 then [Digit(n)] else NatToString(n / 10) + [Digit(n % 10)]
  }

  function Digit(d: nat): char
    requires d < 10
  {
    (d + 48) as char
  }

  /** `{:?}` of an entity in the format the printer's documented output
      shows, `<index>v<generation>`. */
  function EntityDebug(e: Entity): string {
    NatToString(e.index) + "v" + NatToString(e.generation)
  }
}
