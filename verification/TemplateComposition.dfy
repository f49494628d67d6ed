/** One-pass evaluation against replacing the keywords one after another. */
module TemplateComposition {
  import opened CommandTemplates
  import opened TemplateTheorems

  const ALL: set<Keyword> := {AdhocId, AdhocDirectory, AdhocNodes}

  /** Outside its keywords the template holds no opening brace. */
  predicate PlainPieces(ps: seq<Piece>) {
    forall i :: 0 <= i < |ps| ==> ps[i] != Lit('{')
  }

  predicate PlainTemplate(t: string) {
    PlainPieces(Parse(t, ALL))
  }

  predicate PlainValues(m: Bindings) {
    forall k :: k in m ==> '{' !in m[k]
  }

  lemma BracelessDoesNotMatch(t: string, keys: set<Keyword>)
    requires t != "" && t[0] != '{'
    ensures Match(t, keys).None?
  {
    var r := Match(t, keys);
    if r.Some? {
      KeywordTexts(r.value);
    }
  }

  /** A keyword that is not bound is copied. */
  lemma UnboundIsCopied(k: Keyword, rest: string, m: Bindings)
    requires k !in m
    ensures Expand(Text(k) + rest, m) == Text(k) + Expand(rest, m)
  {
    var t := Text(k) + rest;
    KeywordTexts(k);
    var n := |Text(k)|;
    assert forall i :: 0 < i < n ==> t[i..][0] == Text(k)[i] && t[i..][0] != '{';
    forall i: nat, k' | 0 <= i < n && k' in m.Keys
      ensures !At(t, i, k')
    {
      if At(t, i, k') {
        KeywordTexts(k');
        if i == 0 {
          assert t[0..] == t;
          KeywordsApart(k, k', t);
        }
      }
    }
    hide Text, Expand;
    ExpandSkips(t, 0, n, m);
    assert t[0..] == t && t[0..n] == Text(k) && t[n..] == rest;
  }

  lemma BoundIsReplaced(k: Keyword, rest: string, m: Bindings)
    requires k in m
    ensures Expand(Text(k) + rest, m) == m[k] + Expand(rest, m)
  {
    var t := Text(k) + rest;
    hide Text, Expand;
    assert t[0..] == t && t[|Text(k)|..] == rest;
    ExpandsMatch(t, 0, k, m);
  }

  lemma LitIsCopied(c: char, rest: string, m: Bindings)
    requires c != '{'
    ensures Expand([c] + rest, m) == [c] + Expand(rest, m)
  {
    BracelessDoesNotMatch([c] + rest, m.Keys);
    assert ([c] + rest)[1..] == rest;
  }

  /** On plain pieces any bindings, partial ones included, act as a simultaneous substitution. */
  lemma {:induction false} ExpandOfPlainPieces(ps: seq<Piece>, m: Bindings)
    requires PlainPieces(ps)
    ensures Expand(Render(ps), m) == Fill(ps, m)
  {
    hide Text, Expand, Match;
    if ps == [] {
      ExpandOfNothing(m);
    } else {
      ExpandOfPlainPieces(ps[1..], m);
      match ps[0]
      case Lit(c) => LitIsCopied(c, Render(ps[1..]), m);
      case Key(k) =>
        if k in m {
          BoundIsReplaced(k, Render(ps[1..]), m);
        } else {
          UnboundIsCopied(k, Render(ps[1..]), m);
        }
    }
  }

  /** The characters of a value, as literal pieces. */
  function Lits(s: string): seq<Piece> {
    if s == "" then [] else [Lit(s[0])] + Lits(s[1..])
  }

  /** The pieces after a first round of substitution. */
  function Subst(ps: seq<Piece>, m: Bindings): seq<Piece> {
    if ps == [] then []
    else (if ps[0].Key? && ps[0].k in m then Lits(m[ps[0].k]) else [ps[0]]) + Subst(ps[1..], m)
  }

  lemma {:induction false} FillOfSum(ps: seq<Piece>, qs: seq<Piece>, m: Bindings)
    ensures Fill(ps + qs, m) == Fill(ps, m) + Fill(qs, m)
  {
    hide PieceValue;
    if ps == [] {
      assert ps + qs == qs;
    } else {
      assert (ps + qs)[1..] == ps[1..] + qs && (ps + qs)[0] == ps[0];
      FillOfSum(ps[1..], qs, m);
    }
  }

  lemma {:induction false} RenderOfSum(ps: seq<Piece>, qs: seq<Piece>)
    ensures Render(ps + qs) == Render(ps) + Render(qs)
  {
    hide PieceText;
    if ps == [] {
      assert ps + qs == qs;
    } else {
      assert (ps + qs)[1..] == ps[1..] + qs && (ps + qs)[0] == ps[0];
      RenderOfSum(ps[1..], qs);
    }
  }

  lemma {:induction false} LitsAreTheString(s: string, m: Bindings)
    ensures Render(Lits(s)) == s && Fill(Lits(s), m) == s
    ensures '{' !in s ==> PlainPieces(Lits(s))
  {
    if s != "" {
      LitsAreTheString(s[1..], m);
      var ps := Lits(s);
      assert ps[1..] == Lits(s[1..]);
      assert forall i :: 0 < i < |ps| ==> ps[i] == ps[1..][i - 1];
    }
  }

  lemma {:induction false} SubstInTwoRounds(ps: seq<Piece>, m1: Bindings, m2: Bindings)
    requires PlainPieces(ps) && PlainValues(m1) && m1.Keys !! m2.Keys
    ensures PlainPieces(Subst(ps, m1)) && Render(Subst(ps, m1)) == Fill(ps, m1)
    ensures Fill(Subst(ps, m1), m2) == Fill(ps, m1 + m2)
  {
    hide Text;
    if ps != [] {
      SubstInTwoRounds(ps[1..], m1, m2);
      var head := if ps[0].Key? && ps[0].k in m1 then Lits(m1[ps[0].k]) else [ps[0]];
      FillOfSum(head, Subst(ps[1..], m1), m2);
      RenderOfSum(head, Subst(ps[1..], m1));
      if ps[0].Key? && ps[0].k in m1 {
        LitsAreTheString(m1[ps[0].k], m2);
      } else {
        assert Render(head) == PieceText(ps[0]) + Render(head[1..]);
        assert Fill(head, m2) == PieceValue(ps[0], m2) + Fill(head[1..], m2);
      }
    }
  }

  /**
   For a plain template and plain first-round values, evaluating in one pass equals evaluating with some of the
   bindings and then with the others, in particular one keyword after another in any order.
   */
  lemma OnePassIsTwoRounds(t: string, m1: Bindings, m2: Bindings)
    requires PlainTemplate(t) && PlainValues(m1) && m1.Keys !! m2.Keys
    ensures Expand(Expand(t, m1), m2) == Expand(t, m1 + m2)
  {
    var ps := Parse(t, ALL);
    ParseDecomposes(t, ALL);
    hide Text, Expand, Fill, Subst, Parse;
    SubstInTwoRounds(ps, m1, m2);
    ExpandOfPlainPieces(ps, m1);
    ExpandOfPlainPieces(ps, m1 + m2);
    ExpandOfPlainPieces(Subst(ps, m1), m2);
  }

  /** The template stays plain when plain values are substituted, so rounds can follow one another. */
  lemma {:induction false} ExpansionStaysPlain(t: string, m: Bindings)
    requires PlainTemplate(t) && PlainValues(m)
    ensures PlainTemplate(Expand(t, m))
  {
    var ps := Parse(t, ALL);
    ParseDecomposes(t, ALL);
    SubstInTwoRounds(ps, m, map[]);
    ExpandOfPlainPieces(ps, m);
    PlainPiecesAreCanonical(Subst(ps, m));
    DecompositionIsUnique(Subst(ps, m), ALL);
  }

  lemma {:induction false} PlainPiecesAreCanonical(ps: seq<Piece>)
    requires PlainPieces(ps)
    ensures Canonical(ps, ALL)
  {
    hide Text;
    if ps != [] {
      PlainPiecesAreCanonical(ps[1..]);
      match ps[0]
      case Lit(_) => BracelessDoesNotMatch(Render(ps), ALL);
      case Key(k) => assert k.AdhocId? || k.AdhocDirectory? || k.AdhocNodes?;
    }
  }

  /** Replacing the three keywords one after another, in any of the six orders, is the one-pass evaluation. */
  lemma OneByOneInAnyOrder(t: string, m: Bindings, a: Keyword, b: Keyword, c: Keyword)
    requires PlainTemplate(t) && PlainValues(m) && m.Keys == ALL && a != b && a != c && b != c
    ensures Expand(Expand(Expand(t, map[a := m[a]]), map[b := m[b]]), map[c := m[c]]) == Expand(t, m)
  {
    hide Text, Expand, PlainTemplate;
    OnePassIsTwoRounds(t, map[a := m[a]], map[b := m[b]]);
    var two := map[a := m[a]] + map[b := m[b]];
    OnePassIsTwoRounds(t, two, map[c := m[c]]);
    assert two + map[c := m[c]] == m;
  }

  /** The overload with the directory is the overload without it followed by replacing the directory. */
  lemma DeployIsResizeThenDirectory(t: string, id: string, directory: string, nodes: seq<string>)
    requires PlainTemplate(t) && PlainValues(ResizeBindings(id, nodes))
    ensures Expand(t, DeployBindings(id, directory, nodes)) ==
            Expand(Expand(t, ResizeBindings(id, nodes)), map[AdhocDirectory := directory])
  {
    OnePassIsTwoRounds(t, ResizeBindings(id, nodes), map[AdhocDirectory := directory]);
    assert ResizeBindings(id, nodes) + map[AdhocDirectory := directory] == DeployBindings(id, directory, nodes);
  }

  lemma {:induction false} BracelessIsFixed(t: string, m: Bindings)
    requires '{' !in t
    ensures Expand(t, m) == t
  {
    if t != "" {
      LitIsCopied(t[0], t[1..], m);
      assert [t[0]] + t[1..] == t;
      BracelessIsFixed(t[1..], m);
    }
  }

  lemma {:induction false} FillIsBraceless(ps: seq<Piece>, m: Bindings)
    requires PlainPieces(ps) && PlainValues(m) && m.Keys == ALL
    ensures '{' !in Fill(ps, m)
  {
    if ps != [] {
      FillIsBraceless(ps[1..], m);
    }
  }

  /** Evaluating a plain template with plain values leaves nothing to evaluate. */
  lemma EvaluationIsIdempotent(t: string, m: Bindings)
    requires PlainTemplate(t) && PlainValues(m) && m.Keys == ALL
    ensures Expand(Expand(t, m), m) == Expand(t, m)
  {
    var ps := Parse(t, ALL);
    ParseDecomposes(t, ALL);
    ExpandOfPlainPieces(ps, m);
    FillIsBraceless(ps, m);
    BracelessIsFixed(Expand(t, m), m);
  }

  /** Braces in values do matter: one pass leaves a keyword that a value brings in, two rounds replace it. */
  lemma BracesInValuesMatter()
    ensures var m1, m2: Bindings := map[AdhocId := Text(AdhocNodes)], map[AdhocNodes := "n"];
            var t := Text(AdhocId);
            Expand(t, m1 + m2) == Text(AdhocNodes) && Expand(Expand(t, m1), m2) == "n"
  {
    var m1, m2: Bindings := map[AdhocId := Text(AdhocNodes)], map[AdhocNodes := "n"];
    assert Text(AdhocId) + "" == Text(AdhocId) && Text(AdhocNodes) + "" == Text(AdhocNodes);
    BoundIsReplaced(AdhocId, "", m1 + m2);
    BoundIsReplaced(AdhocId, "", m1);
    BoundIsReplaced(AdhocNodes, "", m2);
  }
}
