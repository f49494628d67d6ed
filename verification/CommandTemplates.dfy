/** Expansion of the keywords in a command line template, and how it interacts with tokenising. */
module CommandTemplates {
  import opened Common
  import opened Splitting

  datatype Keyword = AdhocId | AdhocDirectory | AdhocNodes

  type Bindings = map<Keyword, string>

  function Text(k: Keyword): string {
    match k
    case AdhocId => "{ADHOC_ID}"
    case AdhocDirectory => "{ADHOC_DIRECTORY}"
    case AdhocNodes => "{ADHOC_NODES}"
  }

  /** An opening brace starts a keyword and occurs nowhere else in it; no keyword holds a space. */
  lemma KeywordTexts(k: Keyword)
    ensures |Text(k)| > 0 && Text(k)[0] == '{' && ' ' !in Text(k)
    ensures forall i :: 0 < i < |Text(k)| ==> Text(k)[i] != '{'
  {
  }

  /** No text starts with two different keywords. */
  lemma KeywordsApart(k: Keyword, k': Keyword, t: string)
    requires Text(k) <= t && Text(k') <= t
    ensures k == k'
  {
    assert t[7] == Text(k)[7] && t[7] == Text(k')[7];
  }

  /** Keyword `k` stands at position `i` of the text. */
  predicate At(t: string, i: nat, k: Keyword) {
    i <= |t| && Text(k) <= t[i..]
  }

  /** No keyword of `keys` starts in this stretch of the text. */
  ghost predicate NoneBetween(t: string, keys: set<Keyword>, from: nat, to: nat) {
    forall i: nat, k :: from <= i < to && k in keys ==> !At(t, i, k)
  }

  /** The keyword of `keys` that the text starts with. */
  function Match(t: string, keys: set<Keyword>): (r: Option<Keyword>)
    ensures r.Some? ==> r.value in keys && Text(r.value) <= t
    ensures r.None? ==> forall k :: k in keys ==> !(Text(k) <= t)
  {
    if AdhocId in keys && Text(AdhocId) <= t then Some(AdhocId)
    else if AdhocDirectory in keys && Text(AdhocDirectory) <= t then Some(AdhocDirectory)
    else if AdhocNodes in keys && Text(AdhocNodes) <= t then Some(AdhocNodes)
    else None
  }

  /** Leftmost substitution, specified by recursion: inserted values are never looked at again. */
  function Expand(t: string, m: Bindings): string {
    if t == "" then ""
    else
      match Match(t, m.Keys)
      case Some(k) => m[k] + Expand(t[|Text(k)|..], m)
      case None => [t[0]] + Expand(t[1..], m)
  }

  // ---------------------------------------------------------------------------------------------------------
  // The loop
  // ---------------------------------------------------------------------------------------------------------

  /** The alternatives of the pattern, in the order they are tried. */
  ghost predicate ListsKeys(order: seq<Keyword>, keys: set<Keyword>) {
    forall k :: k in order <==> k in keys
  }

  /** The regular expression's attempt at one position: the first alternative that fits. */
  method TryAlternatives(t: string, i: nat, order: seq<Keyword>) returns (r: Option<Keyword>)
    requires i <= |t|
    ensures r.Some? ==> r.value in order && At(t, i, r.value)
    ensures r.None? ==> forall k :: k in order ==> !At(t, i, k)
  {
    for j := 0 to |order|
      invariant forall l :: 0 <= l < j ==> !At(t, i, order[l])
    {
      if Text(order[j]) <= t[i..] {
        return Some(order[j]);
      }
    }
    return None;
  }

  /** The regular expression's search from a position: the leftmost match, or the end of the text. */
  method Search(t: string, order: seq<Keyword>, ghost keys: set<Keyword>, from: nat) returns (position: nat, r: Option<Keyword>)
    requires from <= |t| && ListsKeys(order, keys)
    ensures from <= position <= |t| && NoneBetween(t, keys, from, position)
    ensures r.Some? ==> r.value in keys && At(t, position, r.value)
    ensures r.None? ==> position == |t|
  {
    hide At;
    position := from;
    while position < |t|
      invariant from <= position <= |t| && NoneBetween(t, keys, from, position)
    {
      r := TryAlternatives(t, position, order);
      if r.Some? {
        return;
      }
      position := position + 1;
    }
    r := None;
  }

  lemma ExpandSkipsOne(t: string, from: nat, m: Bindings)
    requires from < |t| && forall k :: k in m ==> !At(t, from, k)
    ensures Expand(t[from..], m) == [t[from]] + Expand(t[from + 1..], m)
  {
    hide Text;
    assert t[from..][1..] == t[from + 1..];
    assert Match(t[from..], m.Keys).Some? ==> At(t, from, Match(t[from..], m.Keys).value);
  }

  lemma {:induction false} ExpandSkips(t: string, from: nat, to: nat, m: Bindings)
    requires from <= to <= |t| && NoneBetween(t, m.Keys, from, to)
    ensures Expand(t[from..], m) == t[from..to] + Expand(t[to..], m)
    decreases |t| - from
  {
    hide Text, At;
    if from < to {
      ExpandSkipsOne(t, from, m);
      ExpandSkips(t, from + 1, to, m);
      assert [t[from]] + t[from + 1..to] == t[from..to];
    }
  }

  lemma ExpandsMatch(t: string, i: nat, k: Keyword, m: Bindings)
    requires At(t, i, k) && k in m
    ensures i < i + |Text(k)| <= |t|
    ensures Expand(t[i..], m) == m[k] + Expand(t[i + |Text(k)|..], m)
  {
    KeywordTexts(k);
    var k' := Match(t[i..], m.Keys).value;
    KeywordsApart(k, k', t[i..]);
    hide Text;
    assert t[i..][|Text(k)|..] == t[i + |Text(k)|..];
  }

  lemma StepOver(t: string, from: nat, position: nat, k: Keyword, m: Bindings, done: string)
    requires from <= position <= |t| && NoneBetween(t, m.Keys, from, position)
    requires At(t, position, k) && k in m
    ensures position < position + |Text(k)| <= |t|
    ensures done + Expand(t[from..], m) == done + t[from..position] + m[k] + Expand(t[position + |Text(k)|..], m)
  {
    hide Text, At, NoneBetween, Expand;
    ExpandSkips(t, from, position, m);
    ExpandsMatch(t, position, k, m);
  }

  lemma SkipRest(t: string, from: nat, m: Bindings)
    requires from <= |t| && NoneBetween(t, m.Keys, from, |t|)
    ensures Expand(t[from..], m) == t[from..]
  {
    ExpandSkips(t, from, |t|, m);
    assert t[from..|t|] == t[from..] && t[|t|..] == "";
  }

  /**
   The evaluation loop, over the matches of a pattern that lists the keywords in any order. It computes the leftmost
   substitution whatever the order.
   */
  method Substitute(cmdline: string, replacements: Bindings, order: seq<Keyword>) returns (result: string)
    requires ListsKeys(order, replacements.Keys)
    ensures result == Expand(cmdline, replacements)
  {
    hide Text, At, NoneBetween, ListsKeys, Expand;
    result := "";
    var lastPos := 0;
    assert cmdline[0..] == cmdline;
    var position, found := Search(cmdline, order, replacements.Keys, 0);
    while found.Some?
      invariant lastPos <= position <= |cmdline| && NoneBetween(cmdline, replacements.Keys, lastPos, position)
      invariant found.Some? ==> found.value in replacements && At(cmdline, position, found.value)
      invariant found.None? ==> position == |cmdline|
      invariant Expand(cmdline, replacements) == result + Expand(cmdline[lastPos..], replacements)
      decreases |cmdline| - lastPos
    {
      var k := found.value;
      StepOver(cmdline, lastPos, position, k, replacements, result);
      result := result + cmdline[lastPos..position] + replacements[k];
      lastPos := position + |Text(k)|;
      position, found := Search(cmdline, order, replacements.Keys, lastPos);
    }
    SkipRest(cmdline, lastPos, replacements);
    result := result + cmdline[lastPos..];
  }

  // ---------------------------------------------------------------------------------------------------------
  // What the two overloads bind
  // ---------------------------------------------------------------------------------------------------------

  /** The fields of all the parts, in order; those of parts without a separator are the parts. */
  function AllFields(parts: seq<string>, sep: char): seq<string> {
    if parts == [] then [] else Fields(parts[0], sep) + AllFields(parts[1..], sep)
  }

  /** The value is a list in double quotes that splits at the commas into the nodes; without nodes there is nothing in it. */
  ghost predicate Lists(value: string, nodes: seq<string>) {
    && |value| >= 2 && value[0] == '"' && value[|value| - 1] == '"'
    && var inside := value[1..|value| - 1];
       if nodes == [] then inside == "" else Fields(inside, ',') == AllFields(nodes, ',')
  }

  /** To start and stop a storage, all three keywords are bound. */
  ghost predicate BindsDeployment(m: Bindings, id: string, directory: string, nodes: seq<string>) {
    && m.Keys == {AdhocId, AdhocDirectory, AdhocNodes}
    && m[AdhocId] == id && m[AdhocDirectory] == directory && Lists(m[AdhocNodes], nodes)
  }

  /** To expand and shrink one, the directory is not. */
  ghost predicate BindsResize(m: Bindings, id: string, nodes: seq<string>) {
    m.Keys == {AdhocId, AdhocNodes} && m[AdhocId] == id && Lists(m[AdhocNodes], nodes)
  }

  lemma {:induction false} AllFieldsOfSepFree(parts: seq<string>, sep: char)
    requires SepFree(parts, sep)
    ensures AllFields(parts, sep) == parts
  {
    if parts != [] {
      FieldsOfWhole(parts[0], sep);
      AllFieldsOfSepFree(parts[1..], sep);
    }
  }

  lemma {:induction false} FieldsOfBoth(a: string, b: string, sep: char)
    ensures Fields(a + [sep] + b, sep) == Fields(a, sep) + Fields(b, sep)
  {
    if a == "" {
      assert a + [sep] + b == [sep] + b && ([sep] + b)[1..] == b;
    } else {
      assert (a + [sep] + b)[1..] == a[1..] + [sep] + b;
      FieldsOfBoth(a[1..], b, sep);
    }
  }

  lemma {:induction false} FieldsOfList(parts: seq<string>, sep: char)
    requires parts != []
    ensures Fields(Rejoin(parts, sep), sep) == AllFields(parts, sep)
  {
    if |parts| == 1 {
      assert AllFields(parts[1..], sep) == [];
    } else {
      FieldsOfList(parts[1..], sep);
      FieldsOfBoth(parts[0], Rejoin(parts[1..], sep), sep);
    }
  }

  /** The nodes are passed as one comma-separated list in double quotes. */
  function Quoted(nodes: seq<string>): (value: string)
    ensures Lists(value, nodes)
  {
    var inside := if nodes == [] then "" else Rejoin(nodes, ',');
    var value := "\"" + inside + "\"";
    assert value[1..|value| - 1] == inside;
    assert nodes != [] ==> Fields(inside, ',') == AllFields(nodes, ',') by {
      if nodes != [] {
        FieldsOfList(nodes, ',');
      }
    }
    value
  }

  /** There is only one such list. */
  lemma ListIsUnique(value: string, nodes: seq<string>)
    requires Lists(value, nodes)
    ensures value == Quoted(nodes)
  {
    var inside, inside' := value[1..|value| - 1], Quoted(nodes)[1..|Quoted(nodes)| - 1];
    RejoinFields(inside, ',');
    RejoinFields(inside', ',');
    hide Fields, Rejoin, AllFields, Quoted;
    assert inside == inside';
    assert value == ['"'] + inside + ['"'] && Quoted(nodes) == ['"'] + inside' + ['"'];
  }

  function DeployBindings(id: string, directory: string, nodes: seq<string>): (m: Bindings)
    ensures BindsDeployment(m, id, directory, nodes)
  {
    map[AdhocId := id, AdhocDirectory := directory, AdhocNodes := Quoted(nodes)]
  }

  function ResizeBindings(id: string, nodes: seq<string>): (m: Bindings)
    ensures BindsResize(m, id, nodes)
  {
    map[AdhocId := id, AdhocNodes := Quoted(nodes)]
  }

  /** What is bound is determined by the identifier, the directory and the nodes. */
  lemma BindingsAreUnique(m: Bindings, id: string, directory: string, nodes: seq<string>)
    ensures BindsDeployment(m, id, directory, nodes) ==> m == DeployBindings(id, directory, nodes)
    ensures BindsResize(m, id, nodes) ==> m == ResizeBindings(id, nodes)
  {
    hide Lists, Quoted;
    if AdhocNodes in m && Lists(m[AdhocNodes], nodes) {
      ListIsUnique(m[AdhocNodes], nodes);
    }
  }

  class Command {
    const cmdline: string

    constructor (cmdline: string)
      ensures this.cmdline == cmdline
    {
      this.cmdline := cmdline;
    }

    /** The overload used to start and stop an adhoc storage; the pattern lists the keys of an ordered map. */
    method Eval(id: string, directory: string, nodes: seq<string>) returns (c: Command)
      ensures c.cmdline == Expand(cmdline, DeployBindings(id, directory, nodes))
      ensures exists m :: BindsDeployment(m, id, directory, nodes) && c.cmdline == Expand(cmdline, m)
    {
      var result := Substitute(cmdline, DeployBindings(id, directory, nodes), [AdhocDirectory, AdhocId, AdhocNodes]);
      c := new Command(result);
    }

    /** The overload used to expand and shrink one. */
    method EvalResize(id: string, nodes: seq<string>) returns (c: Command)
      ensures c.cmdline == Expand(cmdline, ResizeBindings(id, nodes))
      ensures exists m :: BindsResize(m, id, nodes) && c.cmdline == Expand(cmdline, m)
    {
      var result := Substitute(cmdline, ResizeBindings(id, nodes), [AdhocId, AdhocNodes]);
      c := new Command(result);
    }

    method AsVector() returns (tokens: seq<string>)
      ensures tokens == Tokens(cmdline)
    {
      tokens := Splitting.AsVector(cmdline);
    }
  }
}
