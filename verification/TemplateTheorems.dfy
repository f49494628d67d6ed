/** What evaluating a template means, and when it commutes with tokenising and with itself. */
module TemplateTheorems {
  import opened Common
  import opened Splitting
  import opened CommandTemplates

  // ---------------------------------------------------------------------------------------------------------
  // Simultaneous substitution
  // ---------------------------------------------------------------------------------------------------------

  /** A template as literal characters and keyword occurrences. */
  datatype Piece = Lit(c: char) | Key(k: Keyword)

  function PieceText(p: Piece): string {
    match p case Lit(c) => [c] case Key(k) => Text(k)
  }

  function Render(ps: seq<Piece>): string {
    if ps == [] then "" else PieceText(ps[0]) + Render(ps[1..])
  }

  function PieceValue(p: Piece, m: Bindings): string {
    match p case Lit(c) => [c] case Key(k) => if k in m then m[k] else Text(k)
  }

  /** Every bound keyword occurrence replaced at once; a keyword that is not bound stays as it is written. */
  function Fill(ps: seq<Piece>, m: Bindings): string {
    if ps == [] then "" else PieceValue(ps[0], m) + Fill(ps[1..], m)
  }

  /** The pieces are keywords of `keys`, and literals at which no keyword of `keys` starts. */
  predicate Canonical(ps: seq<Piece>, keys: set<Keyword>) {
    ps == [] ||
    (&& (match ps[0] case Lit(_) => Match(Render(ps), keys).None? case Key(k) => k in keys)
     && Canonical(ps[1..], keys))
  }

  function Parse(t: string, keys: set<Keyword>): seq<Piece> {
    if t == "" then []
    else
      match Match(t, keys)
      case Some(k) => [Key(k)] + Parse(t[|Text(k)|..], keys)
      case None => [Lit(t[0])] + Parse(t[1..], keys)
  }

  lemma {:induction false} ParseDecomposes(t: string, keys: set<Keyword>)
    ensures Render(Parse(t, keys)) == t && Canonical(Parse(t, keys), keys)
  {
    hide Text;
    if t != "" {
      match Match(t, keys)
      case Some(k) => KeywordTexts(k); ParseDecomposes(t[|Text(k)|..], keys);
      case None => ParseDecomposes(t[1..], keys);
    }
  }

  /** A text has only one canonical decomposition. */
  lemma {:induction false} DecompositionIsUnique(ps: seq<Piece>, keys: set<Keyword>)
    requires Canonical(ps, keys)
    ensures Parse(Render(ps), keys) == ps
  {
    if ps != [] {
      var t := Render(ps);
      DecompositionIsUnique(ps[1..], keys);
      match ps[0]
      case Lit(c) => hide Text; assert t[1..] == Render(ps[1..]);
      case Key(k) =>
        KeywordTexts(k);
        KeywordsApart(k, Match(t, keys).value, t);
        hide Text;
        assert t[|Text(k)|..] == Render(ps[1..]);
    }
  }

  /** Evaluation fills the unique decomposition: all occurrences at once, and the values are inserted untouched. */
  lemma ExpandIsSimultaneous(t: string, m: Bindings, ps: seq<Piece>)
    requires Render(ps) == t && Canonical(ps, m.Keys)
    ensures Expand(t, m) == Fill(ps, m)
  {
    DecompositionIsUnique(ps, m.Keys);
    ExpandFillsParse(t, m);
  }

  lemma {:induction false} ExpandFillsParse(t: string, m: Bindings)
    ensures Expand(t, m) == Fill(Parse(t, m.Keys), m)
  {
    hide Text;
    if t != "" {
      match Match(t, m.Keys)
      case Some(k) => KeywordTexts(k); ExpandFillsParse(t[|Text(k)|..], m);
      case None => ExpandFillsParse(t[1..], m);
    }
  }

  /** Keyword occurrences never overlap. */
  lemma OccurrencesAreDisjoint(t: string, i: nat, k: Keyword, j: nat, k': Keyword)
    requires At(t, i, k) && At(t, j, k') && i < j
    ensures i + |Text(k)| <= j
  {
    KeywordTexts(k);
    KeywordTexts(k');
    hide Text;
    assert t[j] == Text(k')[0];
    assert forall x :: i < x < i + |Text(k)| ==> t[x] == Text(k)[x - i] && t[x] != '{';
  }

  lemma RenderOfLonger(p: Piece, ps: seq<Piece>, n: nat)
    requires n <= |ps|
    ensures Render(([p] + ps)[..n + 1]) == PieceText(p) + Render(ps[..n])
  {
    assert ([p] + ps)[..n + 1] == [p] + ps[..n] && ([p] + ps[..n])[1..] == ps[..n];
  }

  /** The first piece of a text: a keyword that stands there ends before any later occurrence of a keyword. */
  lemma FirstPiece(t: string, i: nat, k: Keyword, keys: set<Keyword>) returns (p: Piece)
    requires At(t, i, k) && k in keys
    ensures i == 0 ==> p == Key(k)
    ensures i > 0 ==> 0 < |PieceText(p)| <= i <= |t| && At(t[|PieceText(p)|..], i - |PieceText(p)|, k)
    ensures 0 < |PieceText(p)| <= |t| && Parse(t, keys) == [p] + Parse(t[|PieceText(p)|..], keys)
  {
    KeywordTexts(k);
    assert t[0..] == t;
    var head := Match(t, keys);
    if head.Some? {
      KeywordTexts(head.value);
      p := Key(head.value);
      if i == 0 {
        KeywordsApart(k, head.value, t);
      } else {
        OccurrencesAreDisjoint(t, 0, head.value, i, k);
      }
    } else {
      p := Lit(t[0]);
    }
    hide Text;
    assert i > 0 ==> t[|PieceText(p)|..][i - |PieceText(p)|..] == t[i..];
  }

  /** Every occurrence of a keyword is a piece of the decomposition, so none is left unreplaced. */
  lemma {:induction false} EveryOccurrenceIsAPiece(t: string, i: nat, k: Keyword, keys: set<Keyword>) returns (n: nat)
    requires At(t, i, k) && k in keys
    ensures n < |Parse(t, keys)| && Parse(t, keys)[n] == Key(k) && |Render(Parse(t, keys)[..n])| == i
    decreases |t|
  {
    hide At, Parse, PieceText;
    var p := FirstPiece(t, i, k, keys);
    n := 0;
    if i > 0 {
      var skip := |PieceText(p)|;
      var rest := EveryOccurrenceIsAPiece(t[skip..], i - skip, k, keys);
      hide Render;
      RenderOfLonger(p, Parse(t[skip..], keys), rest);
      n := rest + 1;
    }
  }

  // ---------------------------------------------------------------------------------------------------------
  // Tokens
  // ---------------------------------------------------------------------------------------------------------

  function ExpandEach(ts: seq<string>, m: Bindings): (r: seq<string>)
    ensures |r| == |ts|
  {
    seq(|ts|, i requires 0 <= i < |ts| => Expand(ts[i], m))
  }

  /** How many spaces the values substituted into the template bring in. */
  function SpacesBroughtIn(t: string, m: Bindings): nat {
    if t == "" then 0
    else
      match Match(t, m.Keys)
      case Some(k) => Count(m[k], ' ') + SpacesBroughtIn(t[|Text(k)|..], m)
      case None => SpacesBroughtIn(t[1..], m)
  }

  lemma {:induction false} CountOfSum(a: string, b: string, c: char)
    ensures Count(a + b, c) == Count(a, c) + Count(b, c)
  {
    if a == "" {
      assert a + b == b;
    } else {
      assert (a + b)[1..] == a[1..] + b;
      CountOfSum(a[1..], b, c);
    }
  }

  lemma {:induction false} CountIsZero(a: string, c: char)
    ensures Count(a, c) == 0 <==> c !in a
  {
    if a != "" {
      CountIsZero(a[1..], c);
    }
  }

  lemma {:induction false} SpacesOfExpansion(t: string, m: Bindings)
    ensures Count(Expand(t, m), ' ') == Count(t, ' ') + SpacesBroughtIn(t, m)
  {
    if t != "" {
      match Match(t, m.Keys)
      case Some(k) =>
        KeywordTexts(k);
        CountIsZero(Text(k), ' ');
        hide Text;
        var rest := t[|Text(k)|..];
        assert t == Text(k) + rest;
        CountOfSum(Text(k), rest, ' ');
        CountOfSum(m[k], Expand(rest, m), ' ');
        SpacesOfExpansion(rest, m);
      case None =>
        hide Text;
        SpacesOfExpansion(t[1..], m);
        assert ([t[0]] + Expand(t[1..], m))[1..] == Expand(t[1..], m);
    }
  }

  /** A prefix of the text that reaches beyond a keyword at its start starts with that keyword, and with no other. */
  lemma MatchOfPrefix(t: string, p: string, keys: set<Keyword>)
    requires p <= t
    ensures Match(t, keys).None? ==> Match(p, keys).None?
    ensures Match(t, keys).Some? && Text(Match(t, keys).value) <= p ==> Match(p, keys) == Match(t, keys)
  {
    var r := Match(p, keys);
    if r.Some? && Match(t, keys).Some? {
      KeywordsApart(r.value, Match(t, keys).value, t);
    }
    hide Text;
  }

  /** Substituting space-free values field by field is substituting them in the whole text. */
  lemma {:induction false} FieldsCommute(t: string, m: Bindings)
    requires SpacesBroughtIn(t, m) == 0
    ensures Fields(Expand(t, m), ' ') == ExpandEach(Fields(t, ' '), m)
  {
    if t != "" {
      match Match(t, m.Keys)
      case Some(k) =>
        KeywordTexts(k);
        FieldsCommute(t[|Text(k)|..], m);
        FieldsCommuteAtKey(t, m, k);
      case None =>
        FieldsCommute(t[1..], m);
        FieldsCommuteAtLit(t, m);
    }
  }

  lemma ExpandEachOf(first: string, rest: seq<string>, m: Bindings)
    ensures ExpandEach([first] + rest, m) == [Expand(first, m)] + ExpandEach(rest, m)
  {
  }

  lemma FirstFieldAtKey(t: string, m: Bindings, k: Keyword)
    requires t != "" && Match(t, m.Keys) == Some(k)
    ensures var f := Fields(t[|Text(k)|..], ' ')[0]; Expand(Text(k) + f, m) == m[k] + Expand(f, m)
  {
    var rest := t[|Text(k)|..];
    var f := Fields(rest, ' ')[0];
    KeywordTexts(k);
    FirstFieldIsPrefix(rest, ' ');
    hide Fields;
    assert Text(k) + f <= t;
    MatchOfPrefix(t, Text(k) + f, m.Keys);
    hide Text;
    assert (Text(k) + f)[|Text(k)|..] == f;
  }

  lemma FieldsCommuteAtKey(t: string, m: Bindings, k: Keyword)
    requires t != "" && Match(t, m.Keys) == Some(k) && Count(m[k], ' ') == 0
    requires var rest := t[|Text(k)|..]; Fields(Expand(rest, m), ' ') == ExpandEach(Fields(rest, ' '), m)
    ensures Fields(Expand(t, m), ' ') == ExpandEach(Fields(t, ' '), m)
  {
    var rest := t[|Text(k)|..];
    var fields := Fields(rest, ' ');
    FieldsAtKey(t, m, k);
    FirstFieldAtKey(t, m, k);
    hide Text, Fields, ExpandEach, Expand;
    assert fields == [fields[0]] + fields[1..];
    ExpandEachOf(fields[0], fields[1..], m);
    ExpandEachOf(Text(k) + fields[0], fields[1..], m);
  }

  /** How a keyword at the start goes into the first field, before and after its evaluation. */
  lemma FieldsAtKey(t: string, m: Bindings, k: Keyword)
    requires t != "" && Match(t, m.Keys) == Some(k) && Count(m[k], ' ') == 0
    ensures var fields := Fields(t[|Text(k)|..], ' ');
            Fields(t, ' ') == [Text(k) + fields[0]] + fields[1..]
    ensures var fields := Fields(Expand(t[|Text(k)|..], m), ' ');
            Fields(Expand(t, m), ' ') == [m[k] + fields[0]] + fields[1..]
  {
    var rest := t[|Text(k)|..];
    KeywordTexts(k);
    CountIsZero(m[k], ' ');
    assert t == Text(k) + rest;
    assert Expand(t, m) == m[k] + Expand(rest, m);
    hide Text, Fields, Expand, Match, Count;
    FieldsOfFirst(Text(k), rest, ' ');
    FieldsOfFirst(m[k], Expand(rest, m), ' ');
  }

  lemma FirstFieldAtLit(t: string, m: Bindings)
    requires t != "" && Match(t, m.Keys).None?
    ensures var f := Fields(t[1..], ' ')[0]; Expand([t[0]] + f, m) == [t[0]] + Expand(f, m)
  {
    var f := Fields(t[1..], ' ')[0];
    FirstFieldIsPrefix(t[1..], ' ');
    hide Fields, Text;
    assert [t[0]] + f <= t;
    MatchOfPrefix(t, [t[0]] + f, m.Keys);
    assert ([t[0]] + f)[1..] == f;
  }

  lemma FieldsCommuteAtLit(t: string, m: Bindings)
    requires t != "" && Match(t, m.Keys).None?
    requires Fields(Expand(t[1..], m), ' ') == ExpandEach(Fields(t[1..], ' '), m)
    ensures Fields(Expand(t, m), ' ') == ExpandEach(Fields(t, ' '), m)
  {
    var fields := Fields(t[1..], ' ');
    var value := Expand(t, m);
    FirstFieldAtLit(t, m);
    ExpandOfNothing(m);
    assert value == [t[0]] + Expand(t[1..], m);
    assert value[1..] == Expand(t[1..], m) && value != "" && value[0] == t[0];
    assert Fields(t, ' ') == if t[0] == ' ' then [""] + fields else [[t[0]] + fields[0]] + fields[1..];
    hide Text, Match, ExpandEach, Expand;
    assert fields == [fields[0]] + fields[1..];
    ExpandEachOf("", fields, m);
    ExpandEachOf(fields[0], fields[1..], m);
    ExpandEachOf([t[0]] + fields[0], fields[1..], m);
  }

  lemma ExpandOfNothing(m: Bindings)
    ensures Expand("", m) == ""
  {
  }

  lemma FirstFieldIsPrefix(s: string, sep: char)
    ensures Fields(s, sep)[0] <= s
  {
  }

  /** No value put in place of a keyword holds a space, and if there are any pieces, one of them does not vanish. */
  ghost predicate KeepsArguments(ps: seq<Piece>, m: Bindings) {
    && (forall i :: 0 <= i < |ps| && ps[i].Key? ==> ' ' !in PieceValue(ps[i], m))
    && (ps == [] || exists i :: 0 <= i < |ps| && PieceValue(ps[i], m) != "")
  }

  lemma {:induction false} SpacesOfPieces(t: string, m: Bindings)
    ensures var ps := Parse(t, m.Keys);
            SpacesBroughtIn(t, m) == 0 <==> forall i :: 0 <= i < |ps| && ps[i].Key? ==> ' ' !in PieceValue(ps[i], m)
  {
    hide Text;
    if t != "" {
      var ps := Parse(t, m.Keys);
      match Match(t, m.Keys)
      case Some(k) =>
        KeywordTexts(k);
        CountIsZero(m[k], ' ');
        SpacesOfPieces(t[|Text(k)|..], m);
        AllOfPieces(ps, m);
        assert ps[1..] == Parse(t[|Text(k)|..], m.Keys);
      case None =>
        SpacesOfPieces(t[1..], m);
        AllOfPieces(ps, m);
        assert ps == [Lit(t[0])] + Parse(t[1..], m.Keys) && ps[1..] == Parse(t[1..], m.Keys);
    }
  }

  lemma AllOfPieces(ps: seq<Piece>, m: Bindings)
    requires ps != []
    ensures (forall i :: 0 <= i < |ps| && ps[i].Key? ==> ' ' !in PieceValue(ps[i], m)) <==>
              (ps[0].Key? ==> ' ' !in PieceValue(ps[0], m))
              && forall i :: 0 <= i < |ps[1..]| && ps[1..][i].Key? ==> ' ' !in PieceValue(ps[1..][i], m)
  {
    hide PieceValue;
    assert forall i :: 0 < i < |ps| ==> ps[i] == ps[1..][i - 1];
    assert forall i :: 0 <= i < |ps[1..]| ==> ps[1..][i] == ps[i + 1];
  }

  lemma {:induction false} VanishesExactly(ps: seq<Piece>, m: Bindings)
    ensures Fill(ps, m) == "" <==> forall i :: 0 <= i < |ps| ==> PieceValue(ps[i], m) == ""
  {
    hide PieceValue;
    if ps != [] {
      VanishesExactly(ps[1..], m);
      assert forall i :: 0 < i < |ps| ==> ps[i] == ps[1..][i - 1];
      assert forall i :: 0 <= i < |ps[1..]| ==> ps[1..][i] == ps[i + 1];
    }
  }

  /**
   Tokenising commutes with evaluation exactly when no keyword occurrence of the template is given a value with a
   space, and a template that is not empty has a literal character or a keyword with a non-empty value; only then is
   each argument of the template one argument of the command.
   */
  lemma TokensCommuteExactly(t: string, m: Bindings)
    ensures Tokens(Expand(t, m)) == ExpandEach(Tokens(t), m) <==> KeepsArguments(Parse(t, m.Keys), m)
    ensures |Tokens(Expand(t, m))| == |Tokens(t)| <==> KeepsArguments(Parse(t, m.Keys), m)
  {
    ArgumentsAreKeptExactly(t, m);
    hide Parse, Fields, Expand, SpacesBroughtIn;
    FieldCount(t, ' ');
    FieldCount(Expand(t, m), ' ');
    SpacesOfExpansion(t, m);
    if SpacesBroughtIn(t, m) == 0 {
      FieldsCommute(t, m);
    }
  }

  lemma ArgumentsAreKeptExactly(t: string, m: Bindings)
    ensures KeepsArguments(Parse(t, m.Keys), m) <==> SpacesBroughtIn(t, m) == 0 && (t != "" ==> Expand(t, m) != "")
    ensures t == "" ==> Expand(t, m) == ""
  {
    var ps := Parse(t, m.Keys);
    assert t == "" <==> ps == [] by {
      ParseDecomposes(t, m.Keys);
    }
    hide Parse, PieceValue, SpacesBroughtIn;
    SpacesOfPieces(t, m);
    ExpandFillsParse(t, m);
    VanishesExactly(ps, m);
    hide Expand, Fill;
  }

  /** In particular it does for non-empty values without spaces. */
  lemma PlainValuesKeepArguments(t: string, m: Bindings)
    requires forall k :: k in m ==> m[k] != "" && ' ' !in m[k]
    ensures Tokens(Expand(t, m)) == ExpandEach(Tokens(t), m)
  {
    PlainValuesBringNothing(t, m);
    ArgumentsAreKeptExactly(t, m);
    hide KeepsArguments, Expand, Tokens, ExpandEach, SpacesBroughtIn;
    TokensCommuteExactly(t, m);
  }

  lemma {:induction false} PlainValuesBringNothing(t: string, m: Bindings)
    requires forall k :: k in m ==> m[k] != "" && ' ' !in m[k]
    ensures SpacesBroughtIn(t, m) == 0 && (t != "" ==> Expand(t, m) != "")
  {
    if t != "" {
      match Match(t, m.Keys)
      case Some(k) =>
        KeywordTexts(k);
        hide Text;
        CountIsZero(m[k], ' ');
        PlainValuesBringNothing(t[|Text(k)|..], m);
      case None =>
        hide Text;
        PlainValuesBringNothing(t[1..], m);
    }
  }

  // ---------------------------------------------------------------------------------------------------------
  // The two overloads
  // ---------------------------------------------------------------------------------------------------------

  /** Which text is the place of which value; a keyword that is not bound stays, like any character but a brace. */
  lemma KeywordsMean(c: char, rest: string, m: Bindings)
    ensures Expand("{ADHOC_ID}" + rest, m) == (if AdhocId in m then m[AdhocId] else "{ADHOC_ID}") + Expand(rest, m)
    ensures Expand("{ADHOC_DIRECTORY}" + rest, m) ==
            (if AdhocDirectory in m then m[AdhocDirectory] else "{ADHOC_DIRECTORY}") + Expand(rest, m)
    ensures Expand("{ADHOC_NODES}" + rest, m) == (if AdhocNodes in m then m[AdhocNodes] else "{ADHOC_NODES}") + Expand(rest, m)
    ensures c != '{' ==> Expand([c] + rest, m) == [c] + Expand(rest, m)
    ensures Expand("", m) == ""
  {
    KeywordMeans(AdhocId, rest, m);
    KeywordMeans(AdhocDirectory, rest, m);
    KeywordMeans(AdhocNodes, rest, m);
    assert ([c] + rest)[1..] == rest;
  }

  lemma KeywordMeans(k: Keyword, rest: string, m: Bindings)
    ensures Expand(Text(k) + rest, m) == (if k in m then m[k] else Text(k)) + Expand(rest, m)
  {
    var t := Text(k) + rest;
    assert t[0..] == t && t[|Text(k)|..] == rest && t[0..|Text(k)|] == Text(k);
    assert At(t, 0, k);
    if k in m {
      hide Text, Expand;
      ExpandsMatch(t, 0, k, m);
    } else {
      forall i: nat, k' | i < |Text(k)| && k' in m
        ensures !At(t, i, k')
      {
        if At(t, i, k') {
          if i == 0 {
            KeywordsApart(k, k', t);
          } else {
            OccurrencesAreDisjoint(t, 0, k, i, k');
          }
        }
      }
      hide Text, Expand, At;
      ExpandSkips(t, 0, |Text(k)|, m);
    }
  }

  /** A text that an argument can hold: not empty, and without a space. */
  predicate Plain(s: string) {
    s != "" && ' ' !in s
  }

  lemma {:induction false} RejoinIsSpaceFree(parts: seq<string>, sep: char)
    requires parts != [] && sep != ' ' && forall i :: 0 <= i < |parts| ==> ' ' !in parts[i]
    ensures ' ' !in Rejoin(parts, sep)
  {
    if |parts| > 1 {
      RejoinIsSpaceFree(parts[1..], sep);
    }
  }

  lemma ListIsPlain(value: string, nodes: seq<string>)
    requires Lists(value, nodes) && forall i :: 0 <= i < |nodes| ==> ' ' !in nodes[i]
    ensures Plain(value)
  {
    ListIsUnique(value, nodes);
    if nodes != [] {
      RejoinIsSpaceFree(nodes, ',');
    }
  }

  /**
   With a non-empty identifier and directory, and no space in them or in a node, each argument of the template is one
   argument of the command, in both overloads: the list of nodes stays in one argument.
   */
  lemma EvaluationKeepsArguments(t: string, m: Bindings, id: string, directory: string, nodes: seq<string>)
    requires (BindsDeployment(m, id, directory, nodes) && Plain(directory)) || BindsResize(m, id, nodes)
    requires Plain(id) && forall i :: 0 <= i < |nodes| ==> ' ' !in nodes[i]
    ensures |Tokens(Expand(t, m))| == |Tokens(t)| && Tokens(Expand(t, m)) == ExpandEach(Tokens(t), m)
  {
    ListIsPlain(m[AdhocNodes], nodes);
    hide Lists, Tokens, Expand, ExpandEach;
    PlainValuesKeepArguments(t, m);
  }

  /** Nodes without a comma can be read off the value put in their place. */
  lemma NodesCanBeReadBack(m: Bindings, id: string, directory: string, nodes: seq<string>)
    requires BindsDeployment(m, id, directory, nodes) || BindsResize(m, id, nodes)
    requires nodes != [] && forall i :: 0 <= i < |nodes| ==> ',' !in nodes[i]
    ensures |m[AdhocNodes]| >= 2 && Fields(m[AdhocNodes][1..|m[AdhocNodes]| - 1], ',') == nodes
  {
    AllFieldsOfSepFree(nodes, ',');
  }
}
