/** What the text and cursor setters do to the store, as functions over the
    `Text` component map and the window map. */
module TextCursor {
  import opened Ecs

  /** `SetTextSections`: the entity's `Text` gets `sections` in place of its
      own; an entity without `Text` is left alone. */
  function WithSections(texts: map<Entity, Text>, e: Entity, sections: seq<TextSection>): (r: map<Entity, Text>)
    ensures r.Keys == texts.Keys
    ensures e in texts ==> r[e].sections == sections && r[e].layout == texts[e].layout
    ensures forall x | x in texts && x != e :: r[x] == texts[x]
  {
    if e in texts then texts[e := texts[e].(sections := sections)] else texts
  }

  /** The one section `set_text` builds: the given text with the given
      style, or with `defaultStyle` (`TextStyle::default()`) when none is given. */
  function SingleSection(text: string, style: Option<TextStyle>, defaultStyle: TextStyle): seq<TextSection> {
    [TextSection(text, style.GetOr(defaultStyle))]
  }

  /** After `set_text` an entity with `Text` holds exactly one section, with
      the given text and the given or default style; without `Text` nothing
      changes. */
  lemma SetTextOutcome(texts: map<Entity, Text>, e: Entity, text: string, style: Option<TextStyle>, defaultStyle: TextStyle)
    ensures e !in texts ==> WithSections(texts, e, SingleSection(text, style, defaultStyle)) == texts
    ensures e in texts ==>
      var r := WithSections(texts, e, SingleSection(text, style, defaultStyle));
      && |r[e].sections| == 1
      && r[e].sections[0].value == text
      && r[e].sections[0].style == (if style.Some? then style.value else defaultStyle)
  {
  }

  /** Setting sections twice is the same as setting the second ones only:
      the earlier sections leave no trace. */
  lemma WithSectionsLastWins(texts: map<Entity, Text>, e: Entity, a: seq<TextSection>, b: seq<TextSection>)
    ensures WithSections(WithSections(texts, e, a), e, b) == WithSections(texts, e, b)
  {
  }

  /** The windows `query_filtered::<&mut Window, With<PrimaryWindow>>` matches. */
  function PrimaryWindows(windows: map<Entity, Window>, primary: set<Entity>): (r: set<Entity>)
    ensures forall w :: w in r <==> w in windows && w in primary
  {
    set w | w in windows && w in primary
  }

  /** `SetCursor`: when there is exactly one primary window its cursor icon
      becomes `cursor`; with none or several, `get_single_mut` fails and
      nothing changes. */
  ghost function WithCursor(windows: map<Entity, Window>, primary: set<Entity>, cursor: CursorIcon): (r: map<Entity, Window>)
    ensures r.Keys == windows.Keys
    ensures |PrimaryWindows(windows, primary)| != 1 ==> r == windows
    ensures forall w | w in PrimaryWindows(windows, primary) && |PrimaryWindows(windows, primary)| == 1 ::
              r[w].cursorIcon == cursor && r[w].settings == windows[w].settings
    ensures forall x | x in windows && x !in primary :: r[x] == windows[x]
  {
    var ws := PrimaryWindows(windows, primary);
    if |ws| == 1 then
      var w :| w in ws;
      SingletonMember(ws, w);
      windows[w := windows[w].(cursorIcon := cursor)]
    else
      windows
  }

  /** A set of one element holds nothing else. */
  lemma SingletonMember<T>(s: set<T>, x: T)
    requires |s| == 1 && x in s
    ensures s == {x}
  {
    assert |s - {x}| == 0;
  }

  /** Setting the cursor twice is the same as setting it once. */
  lemma WithCursorIdempotent(windows: map<Entity, Window>, primary: set<Entity>, cursor: CursorIcon)
    ensures WithCursor(WithCursor(windows, primary, cursor), primary, cursor) == WithCursor(windows, primary, cursor)
  {
    var once := WithCursor(windows, primary, cursor);
    assert PrimaryWindows(once, primary) == PrimaryWindows(windows, primary);
    var ws := PrimaryWindows(windows, primary);
    if |ws| == 1 {
      var w :| w in ws;
      SingletonMember(ws, w);
      assert once == windows[w := windows[w].(cursorIcon := cursor)];
      assert once[w].(cursorIcon := cursor) == once[w];
    }
  }
}
