/** The flattening of a configuration tree into named items, and the tree rebuilt from the items. */
module ConfigTree {
  import opened Common

  /** A parsed document: maps keep the order of their entries. */
  datatype Node = Map(entries: seq<Entry>) | Sequence(children: seq<Node>) | Scalar(value: string)
  datatype Entry = Entry(key: string, node: Node)

  /** `CLI::ConfigItem` */
  datatype Item = Item(parents: seq<string>, name: string, inputs: seq<string>)

  /** A node that is not a map, with the keys that lead to it. */
  datatype Leaf = Leaf(path: seq<string>, inputs: seq<string>)

  /** The values of the children that have one. */
  function Values(children: seq<Node>): seq<string> {
    if children == [] then []
    else
      var last := children[|children| - 1];
      Values(children[..|children| - 1]) + if last.Scalar? then [last.value] else []
  }

  function Inputs(node: Node): seq<string>
    requires !node.Map?
  {
    if node.Scalar? then [node.value] else Values(node.children)
  }

  lemma {:induction false} ValuesOfSum(a: seq<Node>, b: seq<Node>)
    ensures Values(a + b) == Values(a) + Values(b)
  {
    if b == [] {
      assert a + b == a;
    } else {
      assert (a + b)[..|a + b| - 1] == a + b[..|b| - 1];
      ValuesOfSum(a, b[..|b| - 1]);
    }
  }

  /** The values of a list are those of its scalars, in order; other children give none, and a scalar alone gives its own. */
  lemma ValuesMean(before: seq<Node>, child: Node, after: seq<Node>)
    ensures Values([]) == []
    ensures Values(before + [child] + after) == Values(before) + (if child.Scalar? then [child.value] else []) + Values(after)
    ensures child.Scalar? ==> Inputs(child) == [child.value]
    ensures child.Sequence? ==> Inputs(child) == Values(child.children)
  {
    ValuesOfSum(before + [child], after);
    ValuesOfSum(before, [child]);
    assert [child][..0] == [];
  }

  // ---------------------------------------------------------------------------------------------------------
  // The leaves of a tree
  // ---------------------------------------------------------------------------------------------------------

  function Under(key: string, leaves: seq<Leaf>): (r: seq<Leaf>)
    ensures |r| == |leaves|
    ensures forall i :: 0 <= i < |r| ==> r[i] == Leaf([key] + leaves[i].path, leaves[i].inputs)
  {
    seq(|leaves|, i requires 0 <= i < |leaves| => Leaf([key] + leaves[i].path, leaves[i].inputs))
  }

  /** The leaves in document order. */
  function Leaves(node: Node): seq<Leaf> {
    if node.Map? then LeavesOf(node.entries) else [Leaf([], Inputs(node))]
  }

  function LeavesOf(entries: seq<Entry>): (r: seq<Leaf>)
    ensures forall i :: 0 <= i < |r| ==> r[i].path != []
  {
    if entries == [] then []
    else
      var last := entries[|entries| - 1];
      LeavesOf(entries[..|entries| - 1]) + Under(last.key, Leaves(last.node))
  }

  /** Following the keys from this node leads to a leaf with these inputs. */
  ghost predicate Reaches(node: Node, path: seq<string>, inputs: seq<string>)
    decreases node
  {
    if node.Map? then
      path != [] && exists e :: e in node.entries && e.key == path[0] && Reaches(e.node, path[1..], inputs)
    else
      path == [] && inputs == Inputs(node)
  }

  /** The leaves are exactly what the tree's key paths lead to. */
  lemma {:induction false} LeavesAreReached(node: Node, leaf: Leaf)
    ensures leaf in Leaves(node) <==> Reaches(node, leaf.path, leaf.inputs)
    decreases node
  {
    if node.Map? {
      EntriesAreReached(node.entries, leaf);
    }
  }

  lemma {:induction false} EntriesAreReached(entries: seq<Entry>, leaf: Leaf)
    ensures leaf in LeavesOf(entries) <==>
            leaf.path != [] && exists e :: e in entries && e.key == leaf.path[0] && Reaches(e.node, leaf.path[1..], leaf.inputs)
    decreases entries
  {
    if entries != [] {
      var init, last := entries[..|entries| - 1], entries[|entries| - 1];
      assert entries == init + [last];
      EntriesAreReached(init, leaf);
      if leaf.path != [] {
        var below := Leaf(leaf.path[1..], leaf.inputs);
        LeavesAreReached(last.node, below);
        UnderHas(last.key, Leaves(last.node), leaf);
      }
    }
  }

  lemma UnderHas(key: string, leaves: seq<Leaf>, leaf: Leaf)
    requires leaf.path != []
    ensures leaf in Under(key, leaves) <==> leaf.path[0] == key && Leaf(leaf.path[1..], leaf.inputs) in leaves
  {
    var below := Leaf(leaf.path[1..], leaf.inputs);
    if leaf in Under(key, leaves) {
      var i :| 0 <= i < |leaves| && Under(key, leaves)[i] == leaf;
      assert leaves[i] == below;
    }
    if leaf.path[0] == key && below in leaves {
      var i :| 0 <= i < |leaves| && leaves[i] == below;
      assert leaf.path == [key] + below.path;
      assert Under(key, leaves)[i] == leaf;
    }
  }

  // ---------------------------------------------------------------------------------------------------------
  // The items
  // ---------------------------------------------------------------------------------------------------------

  /** The item of a leaf: its last key is the name, and the non-empty ones before it are the parents. */
  function ItemOf(leaf: Leaf, prefix: seq<string>): Item
    requires leaf.path != []
  {
    var n := |leaf.path| - 1;
    Item(prefix + NonEmpty(leaf.path[..n]), leaf.path[n], leaf.inputs)
  }

  predicate Nameless(leaf: Leaf) {
    leaf.path == [] || leaf.path[|leaf.path| - 1] == ""
  }

  /** The items of the leaves below `prefix`, or the exception for a leaf without a name. */
  function ItemsOf(leaves: seq<Leaf>, prefix: seq<string>): Option<seq<Item>> {
    if leaves == [] then Some([])
    else
      var last := leaves[|leaves| - 1];
      match ItemsOf(leaves[..|leaves| - 1], prefix)
      case Some(items) => if Nameless(last) then None else Some(items + [ItemOf(last, prefix)])
      case None => None
  }

  lemma {:induction false} ItemsOfBoth(a: seq<Leaf>, b: seq<Leaf>, prefix: seq<string>)
    ensures ItemsOf(a + b, prefix) ==
            match ItemsOf(a, prefix)
            case None => None
            case Some(x) => match ItemsOf(b, prefix) case None => None case Some(y) => Some(x + y)
  {
    if b == [] {
      assert a + b == a;
      assert ItemsOf(a, prefix).Some? ==> ItemsOf(a, prefix).value + [] == ItemsOf(a, prefix).value;
    } else {
      var init, last := b[..|b| - 1], b[|b| - 1];
      assert (a + b)[..|a + b| - 1] == a + init && (a + b)[|a + b| - 1] == last;
      ItemsOfBoth(a, init, prefix);
      if ItemsOf(a, prefix).Some? && ItemsOf(b, prefix).Some? {
        var x, y := ItemsOf(a, prefix).value, ItemsOf(init, prefix).value;
        assert x + (y + [ItemOf(last, prefix)]) == x + y + [ItemOf(last, prefix)];
      }
    }
  }

  /** A key passed down as the prefix does what the key in the paths does. */
  lemma {:induction false} KeyGoesToPrefix(key: string, leaves: seq<Leaf>, prefix: seq<string>)
    requires forall i :: 0 <= i < |leaves| ==> leaves[i].path != []
    ensures ItemsOf(Under(key, leaves), prefix) == ItemsOf(leaves, prefix + if key == "" then [] else [key])
  {
    if leaves != [] {
      var init, last := leaves[..|leaves| - 1], leaves[|leaves| - 1];
      KeyGoesToPrefix(key, init, prefix);
      assert Under(key, leaves)[..|init|] == Under(key, init);
      ItemOfUnder(key, last, prefix);
    }
  }

  lemma ItemOfUnder(key: string, leaf: Leaf, prefix: seq<string>)
    requires leaf.path != []
    ensures var under := Leaf([key] + leaf.path, leaf.inputs);
            && ItemOf(under, prefix) == ItemOf(leaf, prefix + if key == "" then [] else [key])
            && (Nameless(under) <==> Nameless(leaf))
  {
    var n := |leaf.path|;
    var keys := ([key] + leaf.path)[..n];
    assert keys == [key] + leaf.path[..n - 1] && keys[1..] == leaf.path[..n - 1];
    var rest := NonEmpty(leaf.path[..n - 1]);
    assert prefix + ([key] + rest) == prefix + [key] + rest && prefix + [] + rest == prefix + rest && [] + rest == rest;
  }

  /** Once a leaf has no name, more leaves do not help. */
  lemma {:induction false} NamelessStays(entries: seq<Entry>, i: nat, prefix: seq<string>)
    requires i <= |entries| && ItemsOf(LeavesOf(entries[..i]), prefix).None?
    ensures ItemsOf(LeavesOf(entries), prefix).None?
  {
    if i == |entries| {
      assert entries[..i] == entries;
    } else {
      var init, last := entries[..|entries| - 1], entries[|entries| - 1];
      assert init[..i] == entries[..i];
      NamelessStays(init, i, prefix);
      ItemsOfBoth(LeavesOf(init), Under(last.key, Leaves(last.node)), prefix);
    }
  }

  /** The values of a node that is not a map. */
  method CollectInputs(node: Node) returns (inputs: seq<string>)
    requires !node.Map?
    ensures inputs == Inputs(node)
  {
    inputs := [];
    if node.Sequence? {
      assert node.children[..|node.children|] == node.children;
      for i := 0 to |node.children|
        invariant inputs == Values(node.children[..i])
      {
        assert node.children[..i + 1][..i] == node.children[..i];
        if node.children[i].Scalar? {
          inputs := inputs + [node.children[i].value];
        }
      }
    } else {
      inputs := [node.value];
    }
  }

  lemma ItemsOfNothing(prefix: seq<string>)
    ensures ItemsOf(LeavesOf([]), prefix) == Some([])
  {
  }

  /** `parse_node` */
  method ParseNode(node: Node, parentName: string, prefix: seq<string>) returns (results: Option<seq<Item>>)
    ensures results == ItemsOf(Under(parentName, Leaves(node)), prefix)
    decreases node
  {
    hide ItemsOf, Under, Inputs;
    if node.Map? {
      var entries := node.entries;
      ghost var below := prefix + if parentName == "" then [] else [parentName];
      KeyGoesToPrefix(parentName, LeavesOf(entries), prefix);
      assert entries[..|entries|] == entries;
      ItemsOfNothing(below);
      var items := [];
      for i := 0 to |entries|
        invariant ItemsOf(LeavesOf(entries[..i]), below) == Some(items)
      {
        var copyPrefix := prefix;
        if parentName != "" {
          copyPrefix := copyPrefix + [parentName];
        }
        assert copyPrefix == below;
        var subResults := ParseNode(entries[i].node, entries[i].key, copyPrefix);
        assert entries[..i + 1][..i] == entries[..i];
        ItemsOfBoth(LeavesOf(entries[..i]), Under(entries[i].key, Leaves(entries[i].node)), below);
        if subResults.None? {
          NamelessStays(entries, i + 1, below);
          return None;
        }
        items := items + subResults.value;
      }
      results := Some(items);
    } else {
      ItemsOfLeaf(node, parentName, prefix);
      if parentName == "" {
        return None;
      }
      var inputs := CollectInputs(node);
      results := Some([Item(prefix, parentName, inputs)]);
    }
  }

  lemma ItemsOfLeaf(node: Node, name: string, prefix: seq<string>)
    requires !node.Map?
    ensures ItemsOf(Under(name, Leaves(node)), prefix) == if name == "" then None else Some([Item(prefix, name, Inputs(node))])
  {
    var leaf := Leaf([name], Inputs(node));
    assert [name] + [] == [name];
    assert Under(name, Leaves(node)) == [leaf] && [leaf][..0] == [];
    assert ItemsOf([], prefix) == Some([]);
    assert prefix + NonEmpty(leaf.path[..0]) == prefix;
    assert [] + [ItemOf(leaf, prefix)] == [ItemOf(leaf, prefix)];
  }

  // ---------------------------------------------------------------------------------------------------------
  // What a whole document gives
  // ---------------------------------------------------------------------------------------------------------

  /** The items of a document, as the parser starts on it: no parent and no prefix. */
  function ItemsOfDocument(root: Node): Option<seq<Item>> {
    ItemsOf(Under("", Leaves(root)), [])
  }

  lemma {:induction false} ItemsAreThoseOfLeaves(leaves: seq<Leaf>, prefix: seq<string>)
    ensures ItemsOf(leaves, prefix).None? <==> exists leaf :: leaf in leaves && Nameless(leaf)
    ensures ItemsOf(leaves, prefix).Some? ==>
              var items := ItemsOf(leaves, prefix).value;
              |items| == |leaves| && forall i :: 0 <= i < |items| ==> leaves[i].path != [] && items[i] == ItemOf(leaves[i], prefix)
  {
    if leaves != [] {
      var init, last := leaves[..|leaves| - 1], leaves[|leaves| - 1];
      ItemsAreThoseOfLeaves(init, prefix);
      assert leaves == init + [last];
    }
  }

  predicate AllKeyed(leaf: Leaf) {
    forall i :: 0 <= i < |leaf.path| ==> leaf.path[i] != ""
  }

  lemma {:induction false} NonEmptyKeepsKeys(keys: seq<string>)
    requires forall i :: 0 <= i < |keys| ==> keys[i] != ""
    ensures NonEmpty(keys) == keys
  {
    if keys != [] {
      NonEmptyKeepsKeys(keys[1..]);
    }
  }

  lemma KeyedItem(leaf: Leaf)
    requires leaf.path != []
    ensures ItemOf(leaf, []).inputs == leaf.inputs && ItemOf(leaf, []).name == leaf.path[|leaf.path| - 1]
    ensures AllKeyed(leaf) ==> ItemOf(leaf, []).parents + [ItemOf(leaf, []).name] == leaf.path
  {
    if AllKeyed(leaf) {
      NonEmptyKeepsKeys(leaf.path[..|leaf.path| - 1]);
    }
  }

  lemma DocumentItems(root: Node)
    ensures ItemsOfDocument(root) == if root.Map? then ItemsOf(Leaves(root), []) else None
  {
    if root.Map? {
      KeyGoesToPrefix("", LeavesOf(root.entries), []);
      var none: seq<string> := [];
      assert none + [] == none;
    } else {
      ItemsOfLeaf(root, "", []);
    }
  }

  /**
   The parser refuses a document exactly when it is not a map or some leaf's last key is empty; otherwise there is one
   item for each leaf, in document order, with the leaf's values and its last key as the name, and where no key is
   empty parents and name are its key path.
   */
  lemma OneItemPerLeaf(root: Node)
    ensures ItemsOfDocument(root).None? <==> !root.Map? || exists leaf :: leaf in Leaves(root) && Nameless(leaf)
    ensures ItemsOfDocument(root).Some? ==>
              var items, leaves := ItemsOfDocument(root).value, Leaves(root);
              && |items| == |leaves|
              && forall i :: 0 <= i < |items| ==>
                   && leaves[i].path != [] && items[i].name == leaves[i].path[|leaves[i].path| - 1]
                   && items[i].inputs == leaves[i].inputs
                   && (AllKeyed(leaves[i]) ==> items[i].parents + [items[i].name] == leaves[i].path)
  {
    hide *;
    DocumentItems(root);
    if root.Map? {
      var leaves := Leaves(root);
      ItemsAreThoseOfLeaves(leaves, []);
      forall i | 0 <= i < |leaves| && leaves[i].path != [] && AllKeyed(leaves[i])
        ensures ItemOf(leaves[i], []).parents + [ItemOf(leaves[i], []).name] == leaves[i].path
      {
        KeyedItem(leaves[i]);
      }
      forall i | 0 <= i < |leaves| && leaves[i].path != []
        ensures ItemOf(leaves[i], []).inputs == leaves[i].inputs
        ensures ItemOf(leaves[i], []).name == leaves[i].path[|leaves[i].path| - 1]
      {
        KeyedItem(leaves[i]);
      }
    }
  }

  // ---------------------------------------------------------------------------------------------------------
  // Rebuilding the tree
  // ---------------------------------------------------------------------------------------------------------

  /** A leaf written as the list of its values. */
  function ListOf(inputs: seq<string>): Node {
    Sequence(seq(|inputs|, i requires 0 <= i < |inputs| => Scalar(inputs[i])))
  }

  /** Whether the next key path continues inside the last entry. */
  predicate Continues(entries: seq<Entry>, key: string) {
    entries != [] && entries[|entries| - 1].key == key && entries[|entries| - 1].node.Map?
  }

  /** The entries with one more leaf, inside the last entry where that is a map with the right key. */
  function Insert(entries: seq<Entry>, path: seq<string>, inputs: seq<string>): seq<Entry>
    requires path != []
    decreases |path|
  {
    if |path| == 1 then entries + [Entry(path[0], ListOf(inputs))]
    else if Continues(entries, path[0]) then
      var n := |entries| - 1;
      entries[..n] + [Entry(path[0], Map(Insert(entries[n].node.entries, path[1..], inputs)))]
    else entries + [Entry(path[0], Map(Insert([], path[1..], inputs)))]
  }

  function InsertAll(entries: seq<Entry>, leaves: seq<Leaf>): seq<Entry>
    requires forall i :: 0 <= i < |leaves| ==> leaves[i].path != []
    decreases |leaves|
  {
    if leaves == [] then entries
    else
      var last := leaves[|leaves| - 1];
      Insert(InsertAll(entries, leaves[..|leaves| - 1]), last.path, last.inputs)
  }

  function LeafOf(item: Item): Leaf {
    Leaf(item.parents + [item.name], item.inputs)
  }

  /** The tree rebuilt from the items. */
  function Rebuild(items: seq<Item>): Node {
    Map(InsertAll([], seq(|items|, i requires 0 <= i < |items| => LeafOf(items[i]))))
  }

  /** The tree with each leaf written as the list of its values, which is all an item keeps of a leaf. */
  function Listed(node: Node): Node {
    if node.Map? then Map(ListedEntries(node.entries)) else ListOf(Inputs(node))
  }

  function ListedEntries(entries: seq<Entry>): (r: seq<Entry>)
    ensures |r| == |entries|
  {
    if entries == [] then []
    else
      var last := entries[|entries| - 1];
      ListedEntries(entries[..|entries| - 1]) + [Entry(last.key, Listed(last.node))]
  }

  /** No map below is empty, and no map is directly followed by another one under the same key. */
  predicate Separated(entries: seq<Entry>) {
    entries == [] ||
    (var n := |entries| - 1;
     && Separated(entries[..n])
     && (entries[n].node.Map? ==>
           && entries[n].node.entries != []
           && Separated(entries[n].node.entries)
           && !Continues(entries[..n], entries[n].key)))
  }

  /** Maps with unique keys and no empty map below are of this kind. */
  predicate UniqueAndFull(entries: seq<Entry>) {
    && (forall i, j :: 0 <= i < j < |entries| ==> entries[i].key != entries[j].key)
    && (forall i :: 0 <= i < |entries| && entries[i].node.Map? ==>
          entries[i].node.entries != [] && UniqueAndFull(entries[i].node.entries))
  }

  lemma {:induction false} UniqueAreSeparated(entries: seq<Entry>)
    requires UniqueAndFull(entries)
    ensures Separated(entries)
    decreases entries
  {
    if entries != [] {
      var n := |entries| - 1;
      assert forall i :: 0 <= i < n ==> entries[..n][i] == entries[i];
      UniqueAreSeparated(entries[..n]);
      if entries[n].node.Map? {
        UniqueAreSeparated(entries[n].node.entries);
      }
    }
  }

  lemma {:induction false} LeavesOfSeparated(entries: seq<Entry>)
    requires Separated(entries) && entries != []
    ensures LeavesOf(entries) != []
    decreases entries
  {
    var last := entries[|entries| - 1];
    if last.node.Map? {
      LeavesOfSeparated(last.node.entries);
    }
  }

  lemma {:induction false} InsertBoth(entries: seq<Entry>, a: seq<Leaf>, b: seq<Leaf>)
    requires forall i :: 0 <= i < |a| ==> a[i].path != []
    requires forall i :: 0 <= i < |b| ==> b[i].path != []
    ensures InsertAll(entries, a + b) == InsertAll(InsertAll(entries, a), b)
  {
    if b == [] {
      assert a + b == a;
    } else {
      var n := |b| - 1;
      assert (a + b)[..|a + b| - 1] == a + b[..n] && (a + b)[|a + b| - 1] == b[n];
      InsertBoth(entries, a, b[..n]);
    }
  }

  /** Leaves under a new key fill one new map. */
  lemma {:induction false} InsertUnder(entries: seq<Entry>, key: string, leaves: seq<Leaf>)
    requires leaves != [] && forall i :: 0 <= i < |leaves| ==> leaves[i].path != []
    requires !Continues(entries, key)
    ensures InsertAll(entries, Under(key, leaves)) == entries + [Entry(key, Map(InsertAll([], leaves)))]
  {
    var n := |leaves| - 1;
    var init, last := leaves[..n], leaves[n];
    var under := Under(key, leaves);
    assert under[..n] == Under(key, init) && under[n] == Leaf([key] + last.path, last.inputs);
    assert under[n].path[1..] == last.path;
    if n > 0 {
      InsertUnder(entries, key, init);
      var filled := entries + [Entry(key, Map(InsertAll([], init)))];
      assert filled[..|entries|] == entries;
    }
  }

  /** Inserting the leaves of separated entries one after another gives the entries back. */
  lemma {:induction false} InsertingGivesBack(entries: seq<Entry>)
    requires Separated(entries)
    ensures InsertAll([], LeavesOf(entries)) == ListedEntries(entries)
    decreases entries
  {
    if entries != [] {
      var n := |entries| - 1;
      var init, last := entries[..n], entries[n];
      InsertingGivesBack(init);
      InsertBoth([], LeavesOf(init), Under(last.key, Leaves(last.node)));
      if last.node.Map? {
        InsertingGivesBack(last.node.entries);
        LeavesOfSeparated(last.node.entries);
        ListedContinues(init, last.key);
        InsertUnder(ListedEntries(init), last.key, LeavesOf(last.node.entries));
      } else {
        var leaf := Leaf([last.key], Inputs(last.node));
        assert [last.key] + [] == [last.key];
        assert Under(last.key, Leaves(last.node)) == [leaf] && [leaf][..0] == [];
      }
    }
  }

  lemma ListedContinues(entries: seq<Entry>, key: string)
    ensures Continues(ListedEntries(entries), key) <==> Continues(entries, key)
  {
  }

  lemma {:induction false} InsertKeepsSeparated(entries: seq<Entry>, path: seq<string>, inputs: seq<string>)
    requires Separated(entries) && path != []
    ensures Insert(entries, path, inputs) != [] && Separated(Insert(entries, path, inputs))
    decreases |path|
  {
    var n := |entries| - 1;
    var more := Insert(entries, path, inputs);
    if |path| == 1 {
      assert more[..|entries|] == entries;
    } else if Continues(entries, path[0]) {
      InsertKeepsSeparated(entries[n].node.entries, path[1..], inputs);
      assert more[..n] == entries[..n];
    } else {
      InsertKeepsSeparated([], path[1..], inputs);
      assert more[..|entries|] == entries;
    }
  }

  lemma {:induction false} InsertedAreSeparated(leaves: seq<Leaf>)
    requires forall i :: 0 <= i < |leaves| ==> leaves[i].path != []
    ensures Separated(InsertAll([], leaves))
  {
    if leaves != [] {
      var n := |leaves| - 1;
      InsertedAreSeparated(leaves[..n]);
      InsertKeepsSeparated(InsertAll([], leaves[..n]), leaves[n].path, leaves[n].inputs);
    }
  }

  lemma {:induction false} ListedSeparated(entries: seq<Entry>)
    ensures Separated(ListedEntries(entries)) <==> Separated(entries)
    decreases entries
  {
    if entries != [] {
      var n := |entries| - 1;
      ListedSeparated(entries[..n]);
      assert ListedEntries(entries)[..n] == ListedEntries(entries[..n]);
      ListedContinues(entries[..n], entries[n].key);
      if entries[n].node.Map? {
        ListedSeparated(entries[n].node.entries);
      }
    }
  }

  /**
   For a map whose leaves have no empty key, the tree rebuilt from the items is the original, leaves written as lists,
   exactly when no map below is empty or directly follows another one under the same key.
   */
  lemma RebuildsExactly(root: Node)
    requires root.Map? && forall leaf :: leaf in Leaves(root) ==> AllKeyed(leaf)
    ensures ItemsOfDocument(root).Some?
    ensures Rebuild(ItemsOfDocument(root).value) == Listed(root) <==> Separated(root.entries)
  {
    var leaves := Leaves(root);
    OneItemPerLeaf(root);
    assert forall leaf :: leaf in leaves ==> leaf.path != [];
    var items := ItemsOfDocument(root).value;
    var kept := seq(|items|, i requires 0 <= i < |items| => LeafOf(items[i]));
    assert forall i :: 0 <= i < |leaves| ==> leaves[i] in leaves && kept[i] == leaves[i];
    assert kept == leaves;
    if Separated(root.entries) {
      InsertingGivesBack(root.entries);
    } else {
      ListedSeparated(root.entries);
      InsertedAreSeparated(leaves);
    }
  }

  /** Unique keys and no empty map below suffice. */
  lemma RebuildsUnique(root: Node)
    requires root.Map? && UniqueAndFull(root.entries) && forall leaf :: leaf in Leaves(root) ==> AllKeyed(leaf)
    ensures ItemsOfDocument(root).Some? && Rebuild(ItemsOfDocument(root).value) == Listed(root)
  {
    UniqueAreSeparated(root.entries);
    RebuildsExactly(root);
  }

  // ---------------------------------------------------------------------------------------------------------
  // Getting the very same tree back
  // ---------------------------------------------------------------------------------------------------------

  /** Every leaf is a list of scalars. */
  predicate OnlyLists(node: Node)
    decreases node
  {
    match node
    case Map(entries) => forall i :: 0 <= i < |entries| ==> OnlyLists(entries[i].node)
    case Sequence(children) => forall i :: 0 <= i < |children| ==> children[i].Scalar?
    case Scalar(_) => false
  }

  lemma {:induction false} ValuesOfScalars(children: seq<Node>)
    requires forall i :: 0 <= i < |children| ==> children[i].Scalar?
    ensures ListOf(Values(children)) == Sequence(children)
  {
    if children != [] {
      var n := |children| - 1;
      ValuesOfScalars(children[..n]);
      assert ListOf(Values(children[..n])).children == children[..n];
      assert ListOf(Values(children)).children == ListOf(Values(children[..n])).children + [children[n]];
    } else {
      assert ListOf([]).children == [];
    }
  }

  lemma OnlyListsBut(entries: seq<Entry>)
    requires OnlyLists(Map(entries)) && entries != []
    ensures var n := |entries| - 1; OnlyLists(Map(entries[..n])) && OnlyLists(entries[n].node)
  {
    assert forall i :: 0 <= i < |entries| - 1 ==> entries[..|entries| - 1][i] == entries[i];
  }

  lemma {:induction false} ListsAreListed(entries: seq<Entry>)
    requires OnlyLists(Map(entries))
    ensures ListedEntries(entries) == entries
    decreases entries
  {
    if entries != [] {
      var n := |entries| - 1;
      OnlyListsBut(entries);
      ListsAreListed(entries[..n]);
      if entries[n].node.Map? {
        hide OnlyLists;
        ListsAreListed(entries[n].node.entries);
      } else {
        ValuesOfScalars(entries[n].node.children);
      }
      hide *;
      assert entries == entries[..n] + [entries[n]];
    }
  }

  lemma {:induction false} InsertKeepsLists(entries: seq<Entry>, path: seq<string>, inputs: seq<string>)
    requires OnlyLists(Map(entries)) && path != []
    ensures OnlyLists(Map(Insert(entries, path, inputs)))
    decreases |path|
  {
    var n := |entries| - 1;
    if |path| > 1 {
      if Continues(entries, path[0]) {
        InsertKeepsLists(entries[n].node.entries, path[1..], inputs);
      } else {
        InsertKeepsLists([], path[1..], inputs);
      }
    }
  }

  lemma {:induction false} InsertedAreLists(leaves: seq<Leaf>)
    requires forall i :: 0 <= i < |leaves| ==> leaves[i].path != []
    ensures OnlyLists(Map(InsertAll([], leaves)))
  {
    if leaves != [] {
      var n := |leaves| - 1;
      InsertedAreLists(leaves[..n]);
      InsertKeepsLists(InsertAll([], leaves[..n]), leaves[n].path, leaves[n].inputs);
    }
  }

  lemma ListedIsSame(root: Node)
    requires root.Map? && OnlyLists(root)
    ensures Listed(root) == root
  {
    ListsAreListed(root.entries);
  }

  lemma RebuiltIsListed(items: seq<Item>)
    ensures Rebuild(items).Map? && OnlyLists(Rebuild(items)) && Separated(Rebuild(items).entries)
  {
    var leaves := seq(|items|, i requires 0 <= i < |items| => LeafOf(items[i]));
    InsertedAreLists(leaves);
    InsertedAreSeparated(leaves);
  }

  /**
   For a map whose leaves have no empty key, the items determine the whole tree, exactly when its leaves are lists of
   scalars and no map below is empty or directly follows another one under the same key.
   */
  lemma GivesBackExactly(root: Node)
    requires root.Map? && forall leaf :: leaf in Leaves(root) ==> AllKeyed(leaf)
    ensures ItemsOfDocument(root).Some?
    ensures Rebuild(ItemsOfDocument(root).value) == root <==> OnlyLists(root) && Separated(root.entries)
  {
    hide *;
    RebuildsExactly(root);
    RebuiltIsListed(ItemsOfDocument(root).value);
    if OnlyLists(root) {
      ListedIsSame(root);
    }
  }
}
