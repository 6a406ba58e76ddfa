/** The hierarchy of the printer's documented output example, and the
    lines the printer emits for it. The documented call passes the filter
    `Some(|info| info.name().contains("Node"))`, which the picture shows
    leaving one component, `Node`, per entity. The hierarchy here gives
    each entity that one component and prints it with no filter, which
    lists the same components; the entities' other components, and what
    the filter does with them, are not modelled. */
module HierarchyExample {
  import opened Ecs
  import opened HierarchyLog

  /** An entity with no `Name` whose only component is `Node`. */
  function Node(index: nat, generation: nat, children: seq<Tree>): Tree {
    Tree(Entity(index, generation), None, [ComponentInfo("Node")], children)
  }

  /** 254v2 → [252v2 → [158v2 → [159v2 → [286v1], 287v1]], 292v1]. */
  function ExampleTree(): Tree {
    Node(254, 2, [
      Node(252, 2, [
        Node(158, 2, [
          Node(159, 2, [Node(286, 1, [])]),
          Node(287, 1, [])])]),
      Node(292, 1, [])])
  }

  /** `Node` is shown as itself. */
  lemma NodeNames()
    ensures SimpleNames(Kept([ComponentInfo("Node")], None)) == ["Node"]
  {
    SimplifyPath(["Node"]);
  }

  /** The two lines printed for a node itself: its line and its one
      component line. */
  lemma NodeLines(t: Tree, level: nat, isLast: bool, trace: seq<nat>, debug: Entity -> string)
    requires t.name == None && t.components == [ComponentInfo("Node")]
    ensures EntityLines(t, level, isLast, trace, None, debug) == [
      EntityLine(Padding(level, trace), isLast, "Entity " + debug(t.id)),
      ComponentLine(Padding(level, trace), ChildPipe(isLast, |t.children| > 0), ["Node"], 0)]
  {
    NodeNames();
  }

  /** An entity line, with the caption of an unnamed entity. */
  lemma EntityLineText(padding: string, isLast: bool, caption: string)
    ensures EntityLine(padding, isLast, "Entity " + caption) == padding + "  " + Prefix(isLast) + "══ Entity " + caption + " "
  {
  }

  /** The line of a lone `Node` component. */
  lemma ComponentLineText(padding: string, childPipe: string)
    ensures ComponentLine(padding, childPipe, ["Node"], 0) == padding + childPipe + "└── Node"
  {
  }

  /** The two lines of a node, spelled out for a given padding and id. */
  lemma NodeText(t: Tree, level: nat, isLast: bool, trace: seq<nat>, debug: Entity -> string, padding: string, caption: string)
    requires t.name == None && t.components == [ComponentInfo("Node")]
    requires padding == Padding(level, trace) && caption == debug(t.id)
    ensures EntityLines(t, level, isLast, trace, None, debug) == [
      padding + "  " + Prefix(isLast) + "══ Entity " + caption + " ",
      padding + ChildPipe(isLast, |t.children| > 0) + "└── Node"]
  {
    NodeLines(t, level, isLast, trace, debug);
    EntityLineText(padding, isLast, caption);
    ComponentLineText(padding, ChildPipe(isLast, |t.children| > 0));
  }

  /** The lines of a node with one child. */
  lemma OneChild(t: Tree, level: nat, isLast: bool, trace: seq<nat>, filter: Option<ComponentInfo -> bool>,
                 debug: Entity -> string, own: seq<string>, c: Tree)
    requires t.children == [c]
    requires EntityLines(t, level, isLast, trace, filter, debug) == own
    ensures Render(t, level, isLast, trace, filter, debug)
            == own + Render(c, level + 1, true, trace, filter, debug)
  {
    ChildrenLinesStep(t, level, trace, filter, debug, 1);
    assert ChildrenLines(t, level, trace, filter, debug, 1) == Render(c, level + 1, true, trace, filter, debug);
  }

  /** The lines of a node with two children: the first adds `level` to the
      trace, the second closes the branch. */
  lemma TwoChildren(t: Tree, level: nat, isLast: bool, trace: seq<nat>, filter: Option<ComponentInfo -> bool>,
                    debug: Entity -> string, own: seq<string>, c0: Tree, c1: Tree, firstTrace: seq<nat>)
    requires t.children == [c0, c1]
    requires firstTrace == trace + [level]
    requires EntityLines(t, level, isLast, trace, filter, debug) == own
    ensures Render(t, level, isLast, trace, filter, debug)
            == own + Render(c0, level + 1, false, firstTrace, filter, debug)
                   + Render(c1, level + 1, true, trace, filter, debug)
  {
    var r0 := Render(c0, level + 1, false, firstTrace, filter, debug);
    var r1 := Render(c1, level + 1, true, trace, filter, debug);
    ChildrenLinesStep(t, level, trace, filter, debug, 1);
    assert ChildrenLines(t, level, trace, filter, debug, 1) == r0;
    ChildrenLinesStep(t, level, trace, filter, debug, 2);
    assert ChildrenLines(t, level, trace, filter, debug, 2) == r0 + r1;
    AppendAssociative(own, r0, r1);
  }

  // The paddings of the example's levels and traces.

  lemma PaddingRoot()
    ensures Padding(0, []) == ""
  {
  }

  lemma PaddingClosed1()
    ensures Padding(1, []) == "    "
  {
    PaddingSnoc(0, []);
  }

  lemma PaddingOpen1()
    ensures Padding(1, [0]) == "    "
  {
    PaddingSnoc(0, [0]);
  }

  lemma PaddingOpen2()
    ensures Padding(2, [0]) == "      ║ "
  {
    PaddingOpen1();
    PaddingSnoc(1, [0]);
  }

  lemma PaddingOpen3()
    ensures Padding(3, [0]) == "      ║     "
  {
    PaddingOpen2();
    PaddingSnoc(2, [0]);
  }

  lemma PaddingTraced3()
    ensures Padding(3, [0, 2]) == "      ║     "
  {
    PaddingOpen3();
    PaddingIgnoresDeeper(3, [0], [2]);
  }

  lemma PaddingTraced4()
    ensures Padding(4, [0, 2]) == "      ║       ║ "
  {
    PaddingTraced3();
    PaddingSnoc(3, [0, 2]);
  }

  /** `debug` formats the example's entities as `{:?}` does. */
  predicate Labeled(debug: Entity -> string) {
    && debug(Entity(254, 2)) == "254v2"
    && debug(Entity(252, 2)) == "252v2"
    && debug(Entity(158, 2)) == "158v2"
    && debug(Entity(159, 2)) == "159v2"
    && debug(Entity(286, 1)) == "286v1"
    && debug(Entity(287, 1)) == "287v1"
    && debug(Entity(292, 1)) == "292v1"
  }

  /** `EntityDebug` is such a formatter. */
  lemma EntityDebugLabels()
    ensures Labeled(EntityDebug)
  {
  }

  /** The two lines of entity 286, spelled out. */
  lemma Text286()
    ensures "      ║       ║ " + "  " + Prefix(true) + "══ Entity " + "286v1" + " " == "      ║       ║   ╚══ Entity 286v1 "
    ensures "      ║       ║ " + ChildPipe(true, false) + "└── Node" == "      ║       ║              └── Node"
  {
  }

  /** Entity 286v1 at level 4, the last of its siblings: its two lines. */
  lemma Lines286(debug: Entity -> string)
    requires Labeled(debug)
    ensures Render(Node(286, 1, []), 4, true, [0, 2], None, debug) == [
      "      ║       ║   ╚══ Entity 286v1 ",
      "      ║       ║              └── Node"]
  {
    Text286();
    PaddingTraced4();
    NodeText(Node(286, 1, []), 4, true, [0, 2], debug, "      ║       ║ ", "286v1");
  }

  /** The line of entity 159, spelled out. */
  lemma Text159()
    ensures "      ║     " + "  " + Prefix(false) + "══ Entity " + "159v2" + " " == "      ║       ╠══ Entity 159v2 "
  {
  }

  /** The component line of entity 159, spelled out. */
  lemma Text159Node()
    ensures "      ║     " + ChildPipe(false, true) + "└── Node" == "      ║       ║   ║      └── Node"
  {
  }

  /** Entity 159v2 at level 3: its two lines, then its children's. */
  lemma Lines159(debug: Entity -> string, c: Tree)
    requires Labeled(debug)
    ensures Render(Node(159, 2, [c]), 3, false, [0, 2], None, debug) == [
      "      ║       ╠══ Entity 159v2 ",
      "      ║       ║   ║      └── Node"]
      + Render(c, 4, true, [0, 2], None, debug)
  {
    Text159();
    Text159Node();
    PaddingTraced3();
    NodeText(Node(159, 2, [c]), 3, false, [0, 2], debug, "      ║     ", "159v2");
    OneChild(Node(159, 2, [c]), 3, false, [0, 2], None, debug, ["      ║       ╠══ Entity 159v2 ", "      ║       ║   ║      └── Node"], c);
  }

  /** The two lines of entity 287, spelled out. */
  lemma Text287()
    ensures "      ║     " + "  " + Prefix(true) + "══ Entity " + "287v1" + " " == "      ║       ╚══ Entity 287v1 "
    ensures "      ║     " + ChildPipe(true, false) + "└── Node" == "      ║                  └── Node"
  {
  }

  /** Entity 287v1 at level 3, the last of its siblings: its two lines. */
  lemma Lines287(debug: Entity -> string)
    requires Labeled(debug)
    ensures Render(Node(287, 1, []), 3, true, [0], None, debug) == [
      "      ║       ╚══ Entity 287v1 ",
      "      ║                  └── Node"]
  {
    Text287();
    PaddingOpen3();
    NodeText(Node(287, 1, []), 3, true, [0], debug, "      ║     ", "287v1");
  }

  /** The two lines of entity 158, spelled out. */
  lemma Text158()
    ensures "      ║ " + "  " + Prefix(true) + "══ Entity " + "158v2" + " " == "      ║   ╚══ Entity 158v2 "
    ensures "      ║ " + ChildPipe(true, true) + "└── Node" == "      ║       ║      └── Node"
  {
  }

  /** Entity 158v2 at level 2, the last of its siblings: its two lines, then its children's. */
  lemma Lines158(debug: Entity -> string, c: Tree, d: Tree)
    requires Labeled(debug)
    ensures Render(Node(158, 2, [c, d]), 2, true, [0], None, debug) == [
      "      ║   ╚══ Entity 158v2 ",
      "      ║       ║      └── Node"]
      + Render(c, 3, false, [0, 2], None, debug)
      + Render(d, 3, true, [0], None, debug)
  {
    Text158();
    PaddingOpen2();
    NodeText(Node(158, 2, [c, d]), 2, true, [0], debug, "      ║ ", "158v2");
    TwoChildren(Node(158, 2, [c, d]), 2, true, [0], None, debug, ["      ║   ╚══ Entity 158v2 ", "      ║       ║      └── Node"], c, d, [0, 2]);
  }

  /** The two lines of entity 252, spelled out. */
  lemma Text252()
    ensures "    " + "  " + Prefix(false) + "══ Entity " + "252v2" + " " == "      ╠══ Entity 252v2 "
    ensures "    " + ChildPipe(false, true) + "└── Node" == "      ║   ║      └── Node"
  {
  }

  /** Entity 252v2 at level 1: its two lines, then its children's. */
  lemma Lines252(debug: Entity -> string, c: Tree)
    requires Labeled(debug)
    ensures Render(Node(252, 2, [c]), 1, false, [0], None, debug) == [
      "      ╠══ Entity 252v2 ",
      "      ║   ║      └── Node"]
      + Render(c, 2, true, [0], None, debug)
  {
    Text252();
    PaddingOpen1();
    NodeText(Node(252, 2, [c]), 1, false, [0], debug, "    ", "252v2");
    OneChild(Node(252, 2, [c]), 1, false, [0], None, debug, ["      ╠══ Entity 252v2 ", "      ║   ║      └── Node"], c);
  }

  /** The two lines of entity 292, spelled out. */
  lemma Text292()
    ensures "    " + "  " + Prefix(true) + "══ Entity " + "292v1" + " " == "      ╚══ Entity 292v1 "
    ensures "    " + ChildPipe(true, false) + "└── Node" == "                 └── Node"
  {
  }

  /** Entity 292v1 at level 1, the last of its siblings: its two lines. */
  lemma Lines292(debug: Entity -> string)
    requires Labeled(debug)
    ensures Render(Node(292, 1, []), 1, true, [], None, debug) == [
      "      ╚══ Entity 292v1 ",
      "                 └── Node"]
  {
    Text292();
    PaddingClosed1();
    NodeText(Node(292, 1, []), 1, true, [], debug, "    ", "292v1");
  }

  /** The two lines of entity 254, spelled out. */
  lemma Text254()
    ensures "" + "  " + Prefix(true) + "══ Entity " + "254v2" + " " == "  ╚══ Entity 254v2 "
    ensures "" + ChildPipe(true, true) + "└── Node" == "      ║      └── Node"
  {
  }

  /** Entity 254v2 at level 0, the last of its siblings: its two lines, then its children's. */
  lemma Lines254(debug: Entity -> string, c: Tree, d: Tree)
    requires Labeled(debug)
    ensures Render(Node(254, 2, [c, d]), 0, true, [], None, debug) == [
      "  ╚══ Entity 254v2 ",
      "      ║      └── Node"]
      + Render(c, 1, false, [0], None, debug)
      + Render(d, 1, true, [], None, debug)
  {
    Text254();
    PaddingRoot();
    NodeText(Node(254, 2, [c, d]), 0, true, [], debug, "", "254v2");
    TwoChildren(Node(254, 2, [c, d]), 0, true, [], None, debug, ["  ╚══ Entity 254v2 ", "      ║      └── Node"], c, d, [0]);
  }

  /** Regrouping the subtrees' lines into one run, entity by entity. */
  lemma Regroup(a: seq<string>, b: seq<string>, c: seq<string>, d: seq<string>, e: seq<string>, f: seq<string>, g: seq<string>)
    ensures a + (b + (c + (d + e) + f)) + g == a + b + c + d + e + f + g
  {
  }

  /** The example's lines for any formatter that labels its entities as
      `{:?}` does, entity by entity in the order they are printed. */
  lemma ExampleLines(debug: Entity -> string)
    requires Labeled(debug)
    ensures LogHierarchyLines(ExampleTree(), None, debug) ==
      ["  ╚══ Entity 254v2 ",
         "      ║      └── Node"]
      + ["      ╠══ Entity 252v2 ",
         "      ║   ║      └── Node"]
      + ["      ║   ╚══ Entity 158v2 ",
         "      ║       ║      └── Node"]
      + ["      ║       ╠══ Entity 159v2 ",
         "      ║       ║   ║      └── Node"]
      + ["      ║       ║   ╚══ Entity 286v1 ",
         "      ║       ║              └── Node"]
      + ["      ║       ╚══ Entity 287v1 ",
         "      ║                  └── Node"]
      + ["      ╚══ Entity 292v1 ",
         "                 └── Node"]
  {
    Lines286(debug);
    Lines159(debug, Node(286, 1, []));
    Lines287(debug);
    Lines158(debug, Node(159, 2, [Node(286, 1, [])]), Node(287, 1, []));
    Lines252(debug, Node(158, 2, [Node(159, 2, [Node(286, 1, [])]), Node(287, 1, [])]));
    Lines292(debug);
    Lines254(debug, Node(252, 2, [Node(158, 2, [Node(159, 2, [Node(286, 1, [])]), Node(287, 1, [])])]), Node(292, 1, []));
    Regroup(
      ["  ╚══ Entity 254v2 ", "      ║      └── Node"],
      ["      ╠══ Entity 252v2 ", "      ║   ║      └── Node"],
      ["      ║   ╚══ Entity 158v2 ", "      ║       ║      └── Node"],
      ["      ║       ╠══ Entity 159v2 ", "      ║       ║   ║      └── Node"],
      ["      ║       ║   ╚══ Entity 286v1 ", "      ║       ║              └── Node"],
      ["      ║       ╚══ Entity 287v1 ", "      ║                  └── Node"],
      ["      ╚══ Entity 292v1 ", "                 └── Node"]);
  }

  /** The lines `log_hierarchy` emits for the documented example: the
      documented picture, each line two columns further right and ending in
      a space where the picture shows `:`. */
  lemma ExampleOutput()
    ensures LogHierarchyLines(ExampleTree(), None, EntityDebug) ==
      ["  ╚══ Entity 254v2 ",
         "      ║      └── Node"]
      + ["      ╠══ Entity 252v2 ",
         "      ║   ║      └── Node"]
      + ["      ║   ╚══ Entity 158v2 ",
         "      ║       ║      └── Node"]
      + ["      ║       ╠══ Entity 159v2 ",
         "      ║       ║   ║      └── Node"]
      + ["      ║       ║   ╚══ Entity 286v1 ",
         "      ║       ║              └── Node"]
      + ["      ║       ╚══ Entity 287v1 ",
         "      ║                  └── Node"]
      + ["      ╚══ Entity 292v1 ",
         "                 └── Node"]
  {
    EntityDebugLabels();
    ExampleLines(EntityDebug);
  }
}
