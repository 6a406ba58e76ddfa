/** `LogHierarchy`: the lines the hierarchy printer emits for an entity and
    its descendants. The engine's logger is left out; a run of the printer is
    the sequence of lines it would hand to `info!`. */
module HierarchyLog {
  import opened Ecs

  /** The part of the store the printer reads, for one entity and its
      descendants: its id, its `Name`, the components `inspect_entity`
      lists (in that order) and its `Children` (in that order). */
  datatype Tree = Tree(id: Entity, name: Option<string>, components: seq<ComponentInfo>, children: seq<Tree>)

  // ---------------------------------------------------------------------------
  // `str::split`, `join` and the simplification of component type names

  predicate OccursAt(s: string, pat: string, i: nat) {
    i + |pat| <= |s| && s[i..i + |pat|] == pat
  }

  predicate Contains(s: string, pat: string) {
    exists i | 0 <= i <= |s| :: OccursAt(s, pat, i)
  }

  lemma OccursAtTail(s: string, pat: string, i: nat)
    requires |s| > 0
    ensures OccursAt(s[1..], pat, i) <==> OccursAt(s, pat, i + 1)
  {
    if i + 1 + |pat| <= |s| {
      assert s[1..][i..i + |pat|] == s[i + 1..i + 1 + |pat|];
    }
  }

  /** The position of the first occurrence of `pat` in `s`. */
  function IndexOf(s: string, pat: string): (r: Option<nat>)
    requires pat != []
    ensures r.Some? ==> r.value + |pat| <= |s|
    decreases |s|
  {
    if |s| < |pat| then None
    else if s[..|pat|] == pat then Some(0)
    else
      match IndexOf(s[1..], pat)
      case None => None
      case Some(i) => Some(i + 1)
  }

  /** `IndexOf` finds an occurrence, the first one, and finds none only when
      there is none. */
  lemma {:induction false} IndexOfFirst(s: string, pat: string)
    requires pat != []
    ensures IndexOf(s, pat).Some? ==> OccursAt(s, pat, IndexOf(s, pat).value)
    ensures IndexOf(s, pat).Some? ==> forall j: nat | j < IndexOf(s, pat).value :: !OccursAt(s, pat, j)
    ensures IndexOf(s, pat).None? ==> forall j: nat :: !OccursAt(s, pat, j)
    decreases |s|
  {
    if |s| >= |pat| && s[..|pat|] != pat {
      IndexOfFirst(s[1..], pat);
      assert !OccursAt(s, pat, 0);
      forall j: nat | 1 <= j ensures OccursAt(s, pat, j) <==> OccursAt(s[1..], pat, j - 1) {
        OccursAtTail(s, pat, j - 1);
      }
    }
  }

  /** `s.split(sep)`: the pieces between the occurrences of `sep`, found left
      to right without overlap. There is always at least one piece. */
  function Split(s: string, sep: string): (r: seq<string>)
    requires sep != []
    ensures |r| >= 1
    decreases |s|
  {
    var found := IndexOf(s, sep);
    if found.None? then [s] else [s[..found.value]] + Split(s[found.value + |sep|..], sep)
  }

  /** No piece of a split holds the separator. */
  lemma {:induction false} SplitPiecesFree(s: string, sep: string)
    requires sep != []
    ensures forall k | 0 <= k < |Split(s, sep)| :: !Contains(Split(s, sep)[k], sep)
    decreases |s|
  {
    IndexOfFirst(s, sep);
    var found := IndexOf(s, sep);
    if found.Some? {
      var i := found.value;
      var rest := s[i + |sep|..];
      SplitPiecesFree(rest, sep);
      SplitAt(s, sep);
      assert !Contains(s[..i], sep) by {
        forall j | 0 <= j <= i ensures !OccursAt(s[..i], sep, j) {
          if j + |sep| <= i {
            assert s[..i][j..j + |sep|] == s[j..j + |sep|];
            assert !OccursAt(s, sep, j);
          }
        }
      }
    }
  }

  /** `parts.join(sep)`. */
  function Join(parts: seq<string>, sep: string): string {
    if parts == [] then ""
    else if |parts| == 1 then parts[0]
    else parts[0] + sep + Join(parts[1..], sep)
  }

  function Last<T>(xs: seq<T>): T
    requires xs != []
  {
    xs[|xs| - 1]
  }

  /** Joining the pieces of a split gives back the string. */
  lemma {:induction false} SplitJoin(s: string, sep: string)
    requires sep != []
    ensures Join(Split(s, sep), sep) == s
    decreases |s|
  {
    var found := IndexOf(s, sep);
    if found.None? {
      assert Split(s, sep) == [s];
    } else {
      var i := found.value;
      var head, rest := s[..i], s[i + |sep|..];
      var tail := Split(rest, sep);
      SplitAt(s, sep);
      SplitJoin(rest, sep);
      JoinCons(head, tail, sep);
      IndexOfFirst(s, sep);
      OccursApart(s, sep, i);
    }
  }

  lemma SplitAt(s: string, sep: string)
    requires sep != [] && IndexOf(s, sep).Some?
    ensures var i := IndexOf(s, sep).value;
      Split(s, sep) == [s[..i]] + Split(s[i + |sep|..], sep)
  {
  }

  /** An occurrence cuts the string into the text before it, the pattern, and the text after it. */
  lemma OccursApart(s: string, pat: string, i: nat)
    requires OccursAt(s, pat, i)
    ensures s == s[..i] + pat + s[i + |pat|..]
  {
    assert s == s[..i] + s[i..i + |pat|] + s[i + |pat|..];
  }

  lemma JoinCons(p: string, tail: seq<string>, sep: string)
    requires tail != []
    ensures Join([p] + tail, sep) == p + sep + Join(tail, sep)
  {
    assert ([p] + tail)[1..] == tail;
  }

  /** A piece free of the separator's first character is split off whole. */
  lemma SplitFree(p: string, sep: string)
    requires sep != [] && sep[0] !in p
    ensures Split(p, sep) == [p]
  {
    IndexOfFirst(p, sep);
    forall j: nat | j + |sep| <= |p| ensures !OccursAt(p, sep, j) {
      assert p[j..j + |sep|][0] == p[j];
    }
  }

  lemma SplitAfterFree(p: string, sep: string, t: string)
    requires sep != [] && sep[0] !in p
    ensures Split(p + sep + t, sep) == [p] + Split(t, sep)
  {
    var s := p + sep + t;
    assert OccursAt(s, sep, |p|) by {
      assert s[|p|..|p| + |sep|] == sep;
    }
    IndexOfFirst(s, sep);
    var r := IndexOf(s, sep);
    assert r.Some? && r.value == |p|;
    SplitAt(s, sep);
    assert s[..|p|] == p;
    assert s[|p| + |sep|..] == t;
  }

  /** Splitting a join gives back the parts, when no part holds the
      separator's first character. */
  lemma {:induction false} JoinSplit(parts: seq<string>, sep: string)
    requires sep != [] && parts != []
    requires forall k | 0 <= k < |parts| :: sep[0] !in parts[k]
    ensures Split(Join(parts, sep), sep) == parts
    decreases |parts|
  {
    if |parts| == 1 {
      SplitFree(parts[0], sep);
    } else {
      var rest := Join(parts[1..], sep);
      assert Join(parts, sep) == parts[0] + sep + rest;
      JoinSplit(parts[1..], sep);
      SplitAfterFree(parts[0], sep, rest);
      assert [parts[0]] + parts[1..] == parts;
    }
  }

  /** A character absent from the parts and from the separator is absent
      from the join. */
  lemma {:induction false} JoinLacks(parts: seq<string>, sep: string, c: char)
    requires c !in sep
    requires forall k | 0 <= k < |parts| :: c !in parts[k]
    ensures c !in Join(parts, sep)
    decreases |parts|
  {
    if |parts| > 1 {
      JoinLacks(parts[1..], sep, c);
    }
  }

  /** Appending to a join appends to its last part. */
  lemma {:induction false} JoinAppend(parts: seq<string>, sep: string, x: string)
    requires parts != []
    ensures Join(parts, sep) + x == Join(parts[..|parts| - 1] + [Last(parts) + x], sep)
    decreases |parts|
  {
    if |parts| > 1 {
      JoinAppend(parts[1..], sep, x);
      assert (parts[..|parts| - 1] + [Last(parts) + x])[1..] == parts[1..][..|parts| - 2] + [Last(parts[1..]) + x];
    }
  }

  /** The text after the last `::` of a type path. */
  function LastSegment(s: string): string {
    Last(Split(s, "::"))
  }

  /** The component name the printer shows: the last `::` segment, or, for a
      name with `<`, the last segment before the first `<`, a `<`, and the
      last segment of the text between the first and second `<`. */
  function SimplifyName(name: string): string {
    var angled := Split(name, "<");
    if |angled| > 1 then LastSegment(angled[0]) + "<" + LastSegment(angled[1])
    else LastSegment(name)
  }

  /** `LastSegment` is a suffix holding no `::`, and it is either the whole
      string or preceded by `::`. */
  lemma LastSegmentSuffix(s: string)
    ensures var r := LastSegment(s);
      && |r| <= |s| && s[|s| - |r|..] == r && !Contains(r, "::")
      && (|r| == |s| || (|r| + 2 <= |s| && s[|s| - |r| - 2..|s| - |r|] == "::"))
  {
    var parts := Split(s, "::");
    SplitJoin(s, "::");
    SplitPiecesFree(s, "::");
    if |parts| > 1 {
      JoinLast(parts, "::");
    }
  }

  lemma {:induction false} JoinLast(parts: seq<string>, sep: string)
    requires |parts| > 1
    ensures Join(parts, sep) == Join(parts[..|parts| - 1], sep) + sep + Last(parts)
    decreases |parts|
  {
    if |parts| > 2 {
      JoinLast(parts[1..], sep);
      assert parts[1..][..|parts| - 2] == parts[..|parts| - 1][1..];
    }
  }

  /** The last segment of a joined type path is its last part. */
  lemma LastSegmentOfPath(path: seq<string>)
    requires path != []
    requires forall k | 0 <= k < |path| :: ':' !in path[k]
    ensures LastSegment(Join(path, "::")) == Last(path)
  {
    JoinSplit(path, "::");
  }

  /** A type path has no `<` when none of its parts has one. */
  lemma PathLacksAngle(path: seq<string>)
    requires forall k | 0 <= k < |path| :: '<' !in path[k]
    ensures '<' !in Join(path, "::")
  {
    JoinLacks(path, "::", '<');
  }

  /** A plain type path `a::b::C` shows as its last segment `C`. */
  lemma SimplifyPath(path: seq<string>)
    requires path != []
    requires forall k | 0 <= k < |path| :: ':' !in path[k] && '<' !in path[k]
    ensures SimplifyName(Join(path, "::")) == Last(path)
  {
    var name := Join(path, "::");
    PathLacksAngle(path);
    SplitFree(name, "<");
    LastSegmentOfPath(path);
  }

  /** Closing a type path with `>` closes its last segment. */
  lemma LastSegmentClosed(path: seq<string>)
    requires path != []
    requires forall k | 0 <= k < |path| :: ':' !in path[k]
    ensures LastSegment(Join(path, "::") + ">") == Last(path) + ">"
  {
    JoinAppend(path, "::", ">");
    var closed := path[..|path| - 1] + [Last(path) + ">"];
    forall k | 0 <= k < |closed| ensures ':' !in closed[k] {
      if k < |path| - 1 {
        assert closed[k] == path[k];
      }
    }
    LastSegmentOfPath(closed);
  }

  /** The name is split at `<` into the text before and after it, when only one `<` occurs. */
  lemma SplitOneAngle(a: string, b: string)
    requires '<' !in a && '<' !in b
    ensures Split(a + "<" + b, "<") == [a, b]
  {
    SplitFree(b, "<");
    SplitAfterFree(a, "<", b);
  }

  /** A generic type `a::F<b::G>` shows as `F<G>`. */
  lemma SimplifyGeneric(outer: seq<string>, inner: seq<string>)
    requires outer != [] && inner != []
    requires forall k | 0 <= k < |outer| :: ':' !in outer[k] && '<' !in outer[k]
    requires forall k | 0 <= k < |inner| :: ':' !in inner[k] && '<' !in inner[k]
    ensures SimplifyName(Join(outer, "::") + "<" + Join(inner, "::") + ">") == Last(outer) + "<" + Last(inner) + ">"
  {
    var a, b := Join(outer, "::"), Join(inner, "::");
    PathLacksAngle(outer);
    PathLacksAngle(inner);
    assert a + "<" + b + ">" == a + "<" + (b + ">");
    SimplifyOneAngle(a, b + ">");
    LastSegmentOfPath(outer);
    LastSegmentClosed(inner);
  }

  /** A nested generic `a::F<b::G<c::H>>` shows as `F<G`: everything from the
      second `<` on is dropped. */
  lemma SimplifyNested(outer: seq<string>, inner: seq<string>, rest: string)
    requires outer != [] && inner != []
    requires forall k | 0 <= k < |outer| :: ':' !in outer[k] && '<' !in outer[k]
    requires forall k | 0 <= k < |inner| :: ':' !in inner[k] && '<' !in inner[k]
    ensures SimplifyName(Join(outer, "::") + "<" + Join(inner, "::") + "<" + rest) == Last(outer) + "<" + Last(inner)
  {
    PathLacksAngle(outer);
    PathLacksAngle(inner);
    SimplifyTwoAngles(Join(outer, "::"), Join(inner, "::"), rest);
    LastSegmentOfPath(outer);
    LastSegmentOfPath(inner);
  }

  /** A generic name with one `<`, `a<b`, shows as the last segments of `a`
      and `b` joined by `<`. */
  lemma SimplifyOneAngle(a: string, b: string)
    requires '<' !in a && '<' !in b
    ensures SimplifyName(a + "<" + b) == LastSegment(a) + "<" + LastSegment(b)
  {
    SplitOneAngle(a, b);
    SimplifyAngled(a + "<" + b, a, b);
  }

  /** A name with two or more `<`, `a<b<rest`, shows as the last segments of
      `a` and `b` joined by `<`: everything from the second `<` on is dropped. */
  lemma SimplifyTwoAngles(a: string, b: string, rest: string)
    requires '<' !in a && '<' !in b
    ensures SimplifyName(a + "<" + b + "<" + rest) == LastSegment(a) + "<" + LastSegment(b)
  {
    var tail := b + "<" + rest;
    assert a + "<" + b + "<" + rest == a + "<" + tail;
    SplitAfterFree(a, "<", tail);
    SplitAfterFree(b, "<", rest);
    SimplifyAngled(a + "<" + tail, a, b);
  }

  lemma SimplifyAngled(name: string, a: string, b: string)
    requires |Split(name, "<")| > 1 && Split(name, "<")[0] == a && Split(name, "<")[1] == b
    ensures SimplifyName(name) == LastSegment(a) + "<" + LastSegment(b)
  {
  }

  // ---------------------------------------------------------------------------
  // The components shown for an entity

  /** The components `inspect_entity` lists that pass the filter, in order;
      with no filter, all of them. */
  function Kept(infos: seq<ComponentInfo>, filter: Option<ComponentInfo -> bool>): (r: seq<ComponentInfo>)
    ensures filter.None? ==> r == infos
    ensures |r| <= |infos|
  {
    if infos == [] then []
    else
      (if filter.None? || filter.value(infos[0]) then [infos[0]] else []) + Kept(infos[1..], filter)
  }

  /** A component is shown exactly when it is listed and passes the filter. */
  lemma {:induction false} KeptMembers(infos: seq<ComponentInfo>, filter: Option<ComponentInfo -> bool>)
    ensures forall x | x in Kept(infos, filter) :: x in infos && (filter.Some? ==> filter.value(x))
    ensures filter.Some? ==> forall x | x in infos && filter.value(x) :: x in Kept(infos, filter)
    decreases |infos|
  {
    if infos != [] {
      KeptMembers(infos[1..], filter);
      assert infos == [infos[0]] + infos[1..];
    }
  }

  /** The simplified names of the components, one per component, in order. */
  function SimpleNames(infos: seq<ComponentInfo>): seq<string> {
    seq(|infos|, i requires 0 <= i < |infos| => SimplifyName(infos[i].name))
  }

  // ---------------------------------------------------------------------------
  // Layout of the lines

  /** The `i`-th four-column padding segment: a vertical line when the
      ancestor list of level `i - 1` still has siblings to come. */
  function PaddingSegment(i: nat, trace: seq<nat>): string {
    if i > 0 && i - 1 in trace then "  ║ " else "    "
  }

  function PaddingParts(level: nat, trace: seq<nat>): seq<string> {
    if level == 0 then [] else PaddingParts(level - 1, trace) + [PaddingSegment(level - 1, trace)]
  }

  function Padding(level: nat, trace: seq<nat>): string {
    Join(PaddingParts(level, trace), "")
  }

  lemma {:induction false} JoinEmptySnoc(parts: seq<string>, x: string)
    ensures Join(parts + [x], "") == Join(parts, "") + x
    decreases |parts|
  {
    if |parts| == 1 {
      assert parts + [x] == [parts[0], x];
    } else if |parts| > 1 {
      JoinEmptySnoc(parts[1..], x);
      assert (parts + [x])[1..] == parts[1..] + [x];
    }
  }

  lemma PaddingSnoc(level: nat, trace: seq<nat>)
    ensures Padding(level + 1, trace) == Padding(level, trace) + PaddingSegment(level, trace)
  {
    JoinEmptySnoc(PaddingParts(level, trace), PaddingSegment(level, trace));
  }

  lemma {:induction false} PaddingLength(level: nat, trace: seq<nat>)
    ensures |Padding(level, trace)| == 4 * level
    decreases level
  {
    if level > 0 {
      PaddingLength(level - 1, trace);
      PaddingSnoc(level - 1, trace);
    }
  }

  lemma {:induction false} PaddingAt(level: nat, trace: seq<nat>, i: nat)
    requires i < level
    ensures 4 * i + 4 <= |Padding(level, trace)|
    ensures Padding(level, trace)[4 * i..4 * i + 4] == PaddingSegment(i, trace)
    decreases level
  {
    PaddingLength(level, trace);
    PaddingLength(level - 1, trace);
    PaddingSnoc(level - 1, trace);
    var p := Padding(level - 1, trace);
    var seg := PaddingSegment(level - 1, trace);
    if i < level - 1 {
      PaddingAt(level - 1, trace, i);
      assert (p + seg)[4 * i..4 * i + 4] == p[4 * i..4 * i + 4];
    } else {
      assert (p + seg)[4 * i..4 * i + 4] == seg;
    }
  }

  /** The padding is `level` segments of four columns; column 2 of segment
      `i` is a vertical line exactly when `i > 0` and `i - 1` is traced. */
  lemma PaddingLayout(level: nat, trace: seq<nat>)
    ensures |Padding(level, trace)| == 4 * level
    ensures forall i | 0 <= i < level :: Padding(level, trace)[4 * i..4 * i + 4] == PaddingSegment(i, trace)
    ensures forall i | 0 <= i < level :: (Padding(level, trace)[4 * i + 2] == '║' <==> i > 0 && i - 1 in trace)
  {
    PaddingLength(level, trace);
    var p := Padding(level, trace);
    forall i | 0 <= i < level
      ensures p[4 * i..4 * i + 4] == PaddingSegment(i, trace)
      ensures p[4 * i + 2] == '║' <==> i > 0 && i - 1 in trace
    {
      PaddingAt(level, trace, i);
      assert p[4 * i + 2] == p[4 * i..4 * i + 4][2];
    }
  }

  /** Levels appended to the trace at or above `level - 1` do not change the
      padding of level `level`. */
  lemma {:induction false} PaddingIgnoresDeeper(level: nat, trace: seq<nat>, extra: seq<nat>)
    requires forall v | v in extra :: v + 1 >= level
    ensures Padding(level, trace + extra) == Padding(level, trace)
    decreases level
  {
    if level > 0 {
      PaddingIgnoresDeeper(level - 1, trace, extra);
      PaddingSnoc(level - 1, trace);
      PaddingSnoc(level - 1, trace + extra);
      assert PaddingSegment(level - 1, trace + extra) == PaddingSegment(level - 1, trace);
    }
  }

  /** `[<id>] <name>` for a named entity, `Entity <id>` otherwise, where
      `debug` is the `{:?}` formatting of entities. */
  function EntityLabel(debug: Entity -> string, id: Entity, name: Option<string>): string {
    match name
    case Some(n) => "[" + debug(id) + "] " + n
    case None => "Entity " + debug(id)
  }

  function Prefix(isLast: bool): string {
    if isLast then "╚" else "╠"
  }

  function EntityLine(padding: string, isLast: bool, caption: string): string {
    padding + ("  " + Prefix(isLast) + "══ " + caption + " ")
  }

  /** The columns between the padding and a component's pipe: the entity's
      own sibling line (when it is not the last child) and the line down to
      its children (when it has any). */
  function ChildPipe(isLast: bool, hasChildren: bool): string {
    if isLast then (if hasChildren then "      ║      " else "             ")
    else (if hasChildren then "  ║   ║      " else "  ║          ")
  }

  function ComponentPipe(isLastComponent: bool): string {
    if isLastComponent then "└" else "├"
  }

  function ComponentLine(padding: string, childPipe: string, names: seq<string>, i: nat): string
    requires i < |names|
  {
    padding + (childPipe + ComponentPipe(i == |names| - 1) + "── " + names[i])
  }

  /** One line per shown component. */
  function ComponentLines(padding: string, childPipe: string, names: seq<string>): seq<string> {
    seq(|names|, i requires 0 <= i < |names| => ComponentLine(padding, childPipe, names, i))
  }

  /** The trace handed to a child: the parent's level is added for every
      child but the last, whose sibling line ends with it. */
  function ChildTrace(trace: seq<nat>, level: nat, isLastChild: bool): seq<nat> {
    if isLastChild then trace else trace + [level]
  }

  /** The lines printed for the entity at the root of `t` itself: its own
      line, then one line per kept component. */
  function EntityLines(t: Tree, level: nat, isLast: bool, trace: seq<nat>, filter: Option<ComponentInfo -> bool>, debug: Entity -> string): seq<string> {
    var padding := Padding(level, trace);
    var names := SimpleNames(Kept(t.components, filter));
    [EntityLine(padding, isLast, EntityLabel(debug, t.id, t.name))]
      + ComponentLines(padding, ChildPipe(isLast, |t.children| > 0), names)
  }

  /** The lines `LogHierarchy { level, is_last, trace_levels, component_filter }`
      emits for the entity at the root of `t`: its own line, one line per
      kept component, then the lines of each child at `level + 1`. */
  function Render(t: Tree, level: nat, isLast: bool, trace: seq<nat>, filter: Option<ComponentInfo -> bool>, debug: Entity -> string): seq<string>
    decreases t, 1, 0
  {
    EntityLines(t, level, isLast, trace, filter, debug)
      + ChildrenLines(t, level, trace, filter, debug, |t.children|)
  }

  /** The lines of the first `k` children of `t`. */
  function ChildrenLines(t: Tree, level: nat, trace: seq<nat>, filter: Option<ComponentInfo -> bool>, debug: Entity -> string, k: nat): seq<string>
    requires k <= |t.children|
    decreases t, 0, k
  {
    if k == 0 then []
    else
      var isLastChild := k - 1 == |t.children| - 1;
      assert t.children[k - 1] in t.children;
      ChildrenLines(t, level, trace, filter, debug, k - 1)
        + Render(t.children[k - 1], level + 1, isLastChild, ChildTrace(trace, level, isLastChild), filter, debug)
  }

  /** `log_hierarchy`: the printer started at level 0, as the last entry,
      with an empty trace. */
  function LogHierarchyLines(t: Tree, filter: Option<ComponentInfo -> bool>, debug: Entity -> string): seq<string> {
    Render(t, 0, true, [], filter, debug)
  }

  // ---------------------------------------------------------------------------
  // Properties of the printed tree

  /** The number of lines: one per entity plus one per kept component. */
  function LineCount(t: Tree, filter: Option<ComponentInfo -> bool>): nat
    decreases t, 1
  {
    1 + |Kept(t.components, filter)| + ChildrenLineCount(t, filter, |t.children|)
  }

  function ChildrenLineCount(t: Tree, filter: Option<ComponentInfo -> bool>, k: nat): nat
    requires k <= |t.children|
    decreases t, 0, k
  {
    if k == 0 then 0
    else
      assert t.children[k - 1] in t.children;
      ChildrenLineCount(t, filter, k - 1) + LineCount(t.children[k - 1], filter)
  }

  /** The number of lines printed does not depend on where in the tree the
      printing starts: level, sibling position and trace only shape them. */
  lemma {:induction false} RenderLineCount(t: Tree, level: nat, isLast: bool, trace: seq<nat>, filter: Option<ComponentInfo -> bool>, debug: Entity -> string)
    ensures |Render(t, level, isLast, trace, filter, debug)| == LineCount(t, filter)
    decreases t, 1, 0, 0
  {
    ChildrenLineCounts(t, level, trace, filter, debug, |t.children|);
  }

  lemma {:induction false} ChildrenLineCounts(t: Tree, level: nat, trace: seq<nat>, filter: Option<ComponentInfo -> bool>, debug: Entity -> string, k: nat)
    requires k <= |t.children|
    ensures |ChildrenLines(t, level, trace, filter, debug, k)| == ChildrenLineCount(t, filter, k)
    decreases t, 0, k, 1
  {
    if k > 0 {
      ChildLinesCount(t, level, trace, filter, debug, k);
      ChildrenLineCounts(t, level, trace, filter, debug, k - 1);
    }
  }

  /** The `k`-th child adds as many lines as its subtree counts. */
  lemma {:induction false} ChildLinesCount(t: Tree, level: nat, trace: seq<nat>, filter: Option<ComponentInfo -> bool>, debug: Entity -> string, k: nat)
    requires 0 < k <= |t.children|
    ensures |ChildrenLines(t, level, trace, filter, debug, k)|
            == |ChildrenLines(t, level, trace, filter, debug, k - 1)| + LineCount(t.children[k - 1], filter)
    decreases t, 0, k, 0
  {
    var isLastChild := k - 1 == |t.children| - 1;
    assert t.children[k - 1] in t.children;
    RenderLineCount(t.children[k - 1], level + 1, isLastChild, ChildTrace(trace, level, isLastChild), filter, debug);
  }

  /** The lines of the first `k` children: those of the first `k - 1`,
      then the subtree of child `k - 1`. */
  lemma ChildrenLinesStep(t: Tree, level: nat, trace: seq<nat>, filter: Option<ComponentInfo -> bool>, debug: Entity -> string, k: nat)
    requires 0 < k <= |t.children|
    ensures ChildrenLines(t, level, trace, filter, debug, k)
            == ChildrenLines(t, level, trace, filter, debug, k - 1)
               + Render(t.children[k - 1], level + 1, k == |t.children|, ChildTrace(trace, level, k == |t.children|), filter, debug)
  {
  }

  lemma ComponentLinesIndented(padding: string, childPipe: string, names: seq<string>)
    ensures forall line | line in ComponentLines(padding, childPipe, names) :: padding <= line
  {
    var lines := ComponentLines(padding, childPipe, names);
    forall line | line in lines ensures padding <= line {
      var i :| 0 <= i < |lines| && lines[i] == line;
    }
  }

  /** Every line printed for a subtree starts with the subtree's padding:
      descendants only ever add columns to the right of it. */
  lemma {:induction false} RenderIndented(t: Tree, level: nat, isLast: bool, trace: seq<nat>, filter: Option<ComponentInfo -> bool>, debug: Entity -> string)
    ensures forall line | line in Render(t, level, isLast, trace, filter, debug) :: Padding(level, trace) <= line
    decreases t, 1, 0
  {
    var padding := Padding(level, trace);
    var names := SimpleNames(Kept(t.components, filter));
    var first := EntityLine(padding, isLast, EntityLabel(debug, t.id, t.name));
    var comps := ComponentLines(padding, ChildPipe(isLast, |t.children| > 0), names);
    var kids := ChildrenLines(t, level, trace, filter, debug, |t.children|);
    assert Render(t, level, isLast, trace, filter, debug) == [first] + comps + kids;
    ComponentLinesIndented(padding, ChildPipe(isLast, |t.children| > 0), names);
    ChildrenIndented(t, level, trace, filter, debug, |t.children|);
    PaddingSnoc(level, trace);
    forall line | line in kids ensures padding <= line {
      assert Padding(level + 1, trace) <= line;
    }
  }

  /** Every line printed for the children of an entity at `level` starts
      with the padding of the children's level under the entity's trace:
      the trace entry a non-last child adds is too deep to show in it. */
  lemma {:induction false} ChildrenIndented(t: Tree, level: nat, trace: seq<nat>, filter: Option<ComponentInfo -> bool>, debug: Entity -> string, k: nat)
    requires k <= |t.children|
    ensures forall line | line in ChildrenLines(t, level, trace, filter, debug, k) :: Padding(level + 1, trace) <= line
    decreases t, 0, k
  {
    if k > 0 {
      var isLastChild := k - 1 == |t.children| - 1;
      var childTrace := ChildTrace(trace, level, isLastChild);
      assert t.children[k - 1] in t.children;
      ChildrenIndented(t, level, trace, filter, debug, k - 1);
      RenderIndented(t.children[k - 1], level + 1, isLastChild, childTrace, filter, debug);
      PaddingIgnoresDeeper(level + 1, trace, if isLastChild then [] else [level]);
      assert trace + (if isLastChild then [] else [level]) == childTrace;
    }
  }

  /** Column `col` of `lines` draws a branch: the corner on the first line
      (`╚` for the last entry, `╠` otherwise), then on every further line
      the line down to the next sibling, or a blank for the last entry. */
  predicate BranchShown(lines: seq<string>, col: nat, isLast: bool) {
    && lines != []
    && col < |lines[0]|
    && lines[0][col] == (if isLast then '╚' else '╠')
    && forall j | 1 <= j < |lines| :: col < |lines[j]| && lines[j][col] == (if isLast then ' ' else '║')
  }

  /** The column an entity at `level - 1` draws for its `k`-th child, at
      `level`: the third column of the child's own padding segment, in
      every line of the child's subtree. It shows `╠` then `║` for a child
      with siblings to come, `╚` then blanks for the last child. The
      parent's own level must not be in its trace, which `TraceBelow`
      shows of every trace built from the empty one. */
  lemma {:induction false} ChildBranch(t: Tree, level: nat, trace: seq<nat>, filter: Option<ComponentInfo -> bool>, debug: Entity -> string, k: nat)
    requires k < |t.children|
    requires level > 0 && level - 1 !in trace
    ensures var last := k == |t.children| - 1;
      BranchShown(Render(t.children[k], level, last, ChildTrace(trace, level - 1, last), filter, debug), 4 * level + 2, last)
  {
    var last := k == |t.children| - 1;
    ChildTraceHolds(trace, level - 1, last);
    RenderBranch(t.children[k], level, last, ChildTrace(trace, level - 1, last), filter, debug);
  }

  /** A child's trace holds its parent's level exactly when the child is
      not the last one, when the parent's own trace does not hold it. */
  lemma {:induction false} ChildTraceHolds(trace: seq<nat>, level: nat, isLastChild: bool)
    requires level !in trace
    ensures level in ChildTrace(trace, level, isLastChild) <==> !isLastChild
  {
  }

  /** The third column of the segment of an entity at `level > 0`, in every
      line of its subtree: its corner, then the line to its next sibling or
      blanks, when its parent's level is traced exactly when it is not the
      last child. */
  lemma {:induction false} RenderBranch(t: Tree, level: nat, isLast: bool, trace: seq<nat>, filter: Option<ComponentInfo -> bool>, debug: Entity -> string)
    requires level > 0 && (level - 1 in trace <==> !isLast)
    ensures BranchShown(Render(t, level, isLast, trace, filter, debug), 4 * level + 2, isLast)
  {
    var own := EntityLines(t, level, isLast, trace, filter, debug);
    var kids := ChildrenLines(t, level, trace, filter, debug, |t.children|);
    EntityLinesBranch(t, level, isLast, trace, filter, debug);
    ChildrenBranch(t, level, trace, filter, debug);
    var lines := own + kids;
    assert Render(t, level, isLast, trace, filter, debug) == lines;
    forall j | 1 <= j < |lines| ensures 4 * level + 2 < |lines[j]| && lines[j][4 * level + 2] == (if isLast then ' ' else '║') {
      if j >= |own| {
        assert lines[j] == kids[j - |own|];
        assert kids[j - |own|] in kids;
      }
    }
  }

  /** The traces the printer builds from `log_hierarchy`'s empty one hold
      only levels above the current one: a child's trace adds only its
      parent's level. So an entity's own level is never in its trace, as
      `ChildBranch` needs. */
  lemma {:induction false} TraceBelow(trace: seq<nat>, level: nat, isLastChild: bool)
    requires forall v | v in trace :: v < level
    ensures level !in trace
    ensures forall v | v in ChildTrace(trace, level, isLastChild) :: v < level + 1
  {
  }

  /** `ChildBranch` for the children of the entity `log_hierarchy` starts
      at: the root's level 0 is not in its empty trace. */
  lemma {:induction false} RootChildBranch(t: Tree, filter: Option<ComponentInfo -> bool>, debug: Entity -> string, k: nat)
    requires k < |t.children|
    ensures var last := k == |t.children| - 1;
      BranchShown(Render(t.children[k], 1, last, ChildTrace([], 0, last), filter, debug), 6, last)
  {
    TraceBelow([], 0, k == |t.children| - 1);
    ChildBranch(t, 1, [], filter, debug, k);
  }

  /** Every line printed for the children of an entity at `level` shows,
      in the third column of the entity's own segment, the entity's
      sibling line: `║` when `level - 1` is traced, a blank otherwise. */
  lemma {:induction false} ChildrenBranch(t: Tree, level: nat, trace: seq<nat>, filter: Option<ComponentInfo -> bool>, debug: Entity -> string)
    ensures forall line | line in ChildrenLines(t, level, trace, filter, debug, |t.children|) ::
      4 * level + 2 < |line| && line[4 * level + 2] == (if level > 0 && level - 1 in trace then '║' else ' ')
  {
    ChildrenIndented(t, level, trace, filter, debug, |t.children|);
    var deeper := Padding(level + 1, trace);
    PaddingAt(level + 1, trace, level);
    assert deeper[4 * level + 2] == deeper[4 * level..4 * level + 4][2];
  }

  /** In the lines of an entity at `level`, the third column of its own
      segment holds its corner on its own line, and on its component lines
      the line down to a next sibling, or a blank for the last one. */
  lemma {:induction false} EntityLinesBranch(t: Tree, level: nat, isLast: bool, trace: seq<nat>, filter: Option<ComponentInfo -> bool>, debug: Entity -> string)
    ensures var lines := EntityLines(t, level, isLast, trace, filter, debug);
      && lines != []
      && 4 * level + 2 < |lines[0]|
      && lines[0][4 * level + 2] == (if isLast then '╚' else '╠')
      && forall j | 1 <= j < |lines| :: 4 * level + 2 < |lines[j]| && lines[j][4 * level + 2] == (if isLast then ' ' else '║')
  {
    var padding := Padding(level, trace);
    var names := SimpleNames(Kept(t.components, filter));
    var pipe := ChildPipe(isLast, |t.children| > 0);
    var comps := ComponentLines(padding, pipe, names);
    PaddingLength(level, trace);
    ComponentLinesBranch(padding, pipe, names);
    var lines := EntityLines(t, level, isLast, trace, filter, debug);
    assert lines == [EntityLine(padding, isLast, EntityLabel(debug, t.id, t.name))] + comps;
    assert pipe[2] == (if isLast then ' ' else '║');
    forall j | 1 <= j < |lines| ensures 4 * level + 2 < |lines[j]| && lines[j][4 * level + 2] == (if isLast then ' ' else '║') {
      assert lines[j] == comps[j - 1];
    }
  }

  /** The column two to the right of the padding of a component line is
      the third column of its child pipe. */
  lemma {:induction false} ComponentLinesBranch(padding: string, childPipe: string, names: seq<string>)
    requires |childPipe| > 2
    ensures forall i | 0 <= i < |names| ::
              && |padding| + 2 < |ComponentLines(padding, childPipe, names)[i]|
              && ComponentLines(padding, childPipe, names)[i][|padding| + 2] == childPipe[2]
  {
  }

  /** The root line: no padding, the last-entry corner, and the label. */
  lemma RootLine(t: Tree, filter: Option<ComponentInfo -> bool>, debug: Entity -> string)
    ensures LogHierarchyLines(t, filter, debug)[0] == "  ╚══ " + EntityLabel(debug, t.id, t.name) + " "
  {
    assert Padding(0, []) == "";
  }

  // ---------------------------------------------------------------------------
  // The printer as the source runs it: loops that build the lines

  lemma AppendAssociative<T>(a: seq<T>, b: seq<T>, c: seq<T>)
    ensures (a + b) + c == a + (b + c)
  {
  }

  /** One turn of the children loop of `LogHierarchy::apply`: appending
      the lines of child `i`, printed with its sibling position and trace,
      to the lines of the first `i` children gives those of the first `i + 1`. */
  lemma ExtendChildren(t: Tree, level: nat, trace: seq<nat>, filter: Option<ComponentInfo -> bool>, debug: Entity -> string,
                       i: nat, lines: seq<string>, isLastChild: bool, childTrace: seq<nat>, childLines: seq<string>)
    requires i < |t.children|
    requires lines == ChildrenLines(t, level, trace, filter, debug, i)
    requires isLastChild == (i == |t.children| - 1)
    requires childTrace == ChildTrace(trace, level, isLastChild)
    requires childLines == Render(t.children[i], level + 1, isLastChild, childTrace, filter, debug)
    ensures lines + childLines == ChildrenLines(t, level, trace, filter, debug, i + 1)
  {
    ChildrenLinesStep(t, level, trace, filter, debug, i + 1);
  }

  /** The padding loop of `LogHierarchy::apply`: one segment per level,
      joined. */
  method BuildPadding(level: nat, trace: seq<nat>) returns (padding: string)
    ensures padding == Padding(level, trace)
  {
    var paddingParts: seq<string> := [];
    for i := 0 to level
      invariant paddingParts == PaddingParts(i, trace)
    {
      var shouldTrace := i > 0 && i - 1 in trace;
      paddingParts := paddingParts + [if shouldTrace then "  ║ " else "    "];
    }
    padding := Join(paddingParts, "");
  }

  /** The component loop of `LogHierarchy::apply`: one line per shown
      component, the last one with the closing pipe. */
  method BuildComponentLines(padding: string, isLast: bool, hasChildren: bool, debugInfos: seq<string>)
    returns (lines: seq<string>)
    ensures lines == ComponentLines(padding, ChildPipe(isLast, hasChildren), debugInfos)
  {
    lines := [];
    for i := 0 to |debugInfos|
      invariant |lines| == i
      invariant forall j | 0 <= j < i :: lines[j] == ComponentLine(padding, ChildPipe(isLast, hasChildren), debugInfos, j)
    {
      var isLastComponent := i == |debugInfos| - 1;
      var componentPipe := if isLastComponent then "└" else "├";
      var childPipe :=
        if isLast then (if hasChildren then "      ║      " else "             ")
        else (if hasChildren then "  ║   ║      " else "  ║          ");
      lines := lines + [padding + (childPipe + componentPipe + "── " + debugInfos[i])];
    }
  }
}
