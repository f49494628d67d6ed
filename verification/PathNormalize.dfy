/** Lexical normalisation of paths, over the text of a path as `std::filesystem::path` keeps it. */
module PathNormalize {
  import opened Common
  import opened Splitting

  // ---------------------------------------------------------------------------------------------------------
  // Paths, by the rules of [fs.path.generic], [fs.path.append] and [fs.path.modifiers] in ISO C++20
  // ---------------------------------------------------------------------------------------------------------

  /** The file names of a path. */
  function FileNames(path: string): seq<string> {
    NonEmpty(Fields(path, '/'))
  }

  predicate EndsWithSeparator(path: string) {
    path != "" && path[|path| - 1] == '/'
  }

  /** What iterating over a path visits: the root, the names, and an empty element for a trailing separator. */
  function Elements(path: string): seq<string> {
    (if path != "" && path[0] == '/' then ["/"] else [])
    + FileNames(path)
    + (if EndsWithSeparator(path) && FileNames(path) != [] then [""] else [])
  }

  /** `remove_filename`, which keeps the separator before the name. */
  function RemoveFilename(path: string): string {
    if path == "" || EndsWithSeparator(path) then path else RemoveFilename(path[..|path| - 1])
  }

  /** `operator/=`: an absolute right-hand side replaces the path. */
  function Append(path: string, elem: string): string {
    if elem != "" && elem[0] == '/' then elem
    else path + (if path != "" && !EndsWithSeparator(path) then "/" else "") + elem
  }

  /** The guard against iterators that give `//a` as one element. */
  function WithoutDoubleSlash(elem: string): string {
    if |elem| > 2 && "//" <= elem then elem[2..] else elem
  }

  /** Equality of paths with `/`, which any number of separators denotes. */
  predicate IsRoot(path: string) {
    path != "" && forall i :: 0 <= i < |path| ==> path[i] == '/'
  }

  // ---------------------------------------------------------------------------------------------------------
  // The state of the loop
  // ---------------------------------------------------------------------------------------------------------

  /** The path built so far: its names, and whether a separator stands at its end. */
  datatype Built = Built(names: seq<string>, slash: bool)

  function Step(b: Built, elem: string): Built {
    if elem == ".." then (if b.slash then b else Built(b.names[..|b.names| - (if b.names == [] then 0 else 1)], true))
    else if elem == "." || elem == "/" then b
    else if elem == "" then Built(b.names, true)
    else Built(b.names + [elem], false)
  }

  function Walk(elems: seq<string>): Built {
    if elems == [] then Built([], true) else Step(Walk(elems[..|elems| - 1]), elems[|elems| - 1])
  }

  predicate IsName(s: string) {
    s != "" && s != "." && s != ".." && '/' !in s
  }

  ghost predicate Proper(b: Built) {
    && (forall i :: 0 <= i < |b.names| ==> IsName(b.names[i]))
    && (b.names == [] ==> b.slash)
  }

  function Absolute(names: seq<string>): string {
    if names == [] then "" else Absolute(names[..|names| - 1]) + "/" + names[|names| - 1]
  }

  function Render(b: Built): string {
    Absolute(b.names) + if b.slash then "/" else ""
  }

  /** The normal form the loop computes. */
  function Normal(path: string): string
    requires path != ""
  {
    Render(Walk(Elements(path)))
  }

  ghost predicate IsElement(e: string) {
    e == "/" || '/' !in e
  }

  /** The root comes only first and the empty element only last. */
  ghost predicate OnlyOutside(elems: seq<string>) {
    && (forall i :: 0 < i < |elems| ==> elems[i] != "/")
    && (forall i :: 0 <= i < |elems| - 1 ==> elems[i] != "")
  }

  lemma {:induction false} NonEmptyParts(parts: seq<string>)
    ensures forall i :: 0 <= i < |NonEmpty(parts)| ==> NonEmpty(parts)[i] != "" && NonEmpty(parts)[i] in parts
  {
    if parts != [] {
      NonEmptyParts(parts[1..]);
    }
  }

  lemma FileNamesAreElements(path: string)
    ensures forall i :: 0 <= i < |FileNames(path)| ==> FileNames(path)[i] != "" && '/' !in FileNames(path)[i]
  {
    hide Fields, NonEmpty;
    NonEmptyParts(Fields(path, '/'));
    RejoinFields(path, '/');
  }

  lemma ElementsAreElements(path: string)
    ensures forall i :: 0 <= i < |Elements(path)| ==> IsElement(Elements(path)[i])
    ensures OnlyOutside(Elements(path))
  {
    hide FileNames;
    FileNamesAreElements(path);
  }

  lemma {:induction false} WalkIsProper(elems: seq<string>)
    requires forall i :: 0 <= i < |elems| ==> IsElement(elems[i])
    ensures Proper(Walk(elems))
  {
    if elems != [] {
      WalkIsProper(elems[..|elems| - 1]);
    }
  }

  // ---------------------------------------------------------------------------------------------------------
  // The text operations on a rendered path
  // ---------------------------------------------------------------------------------------------------------

  lemma RenderedEnd(b: Built)
    requires Proper(b)
    ensures Render(b) != "" && (EndsWithSeparator(Render(b)) <==> b.slash)
    ensures IsRoot(Render(b)) <==> b.names == []
    ensures b.names == [] ==> Render(b) == "/"
  {
    if b.names != [] {
      var last := b.names[|b.names| - 1];
      assert IsName(last);
      var n := |Absolute(b.names)|;
      assert Render(b)[n - 1] == Absolute(b.names)[n - 1] == last[|last| - 1];
      assert last[|last| - 1] in last;
    }
  }

  lemma AppendElement(b: Built, elem: string)
    requires Proper(b) && '/' !in elem
    ensures Append(Render(b), elem) == Render(if elem == "" then Built(b.names, true) else Built(b.names + [elem], false))
  {
    RenderedEnd(b);
    assert (b.names + [elem])[..|b.names|] == b.names;
    assert elem != "" ==> elem[0] in elem;
  }

  lemma {:induction false} RemoveName(before: string, name: string)
    requires '/' !in name
    ensures RemoveFilename(before + "/" + name) == before + "/"
  {
    var path := before + "/" + name;
    if name == "" {
      assert path == before + "/";
    } else {
      assert path[|path| - 1] == name[|name| - 1] && name[|name| - 1] in name;
      assert path[..|path| - 1] == before + "/" + name[..|name| - 1];
      RemoveName(before, name[..|name| - 1]);
    }
  }

  lemma RemoveElement(b: Built)
    requires Proper(b)
    ensures RemoveFilename(Render(b)) == Render(Step(b, ".."))
  {
    RenderedEnd(b);
    if !b.slash {
      var last := b.names[|b.names| - 1];
      assert IsName(last);
      RemoveName(Absolute(b.names[..|b.names| - 1]), last);
      assert Render(b) == Absolute(b.names[..|b.names| - 1]) + "/" + last;
    }
  }

  method LexicalNormalize(pathname: string, asDirectory: bool) returns (tmp: string)
    ensures pathname == "" ==> tmp == ""
    ensures pathname != "" && !asDirectory ==> tmp == Normal(pathname)
    ensures pathname != "" && asDirectory ==> tmp == "/"
  {
    hide Elements, RemoveFilename, Append, Proper;
    if pathname == "" {
      return "";
    }
    RootIsNormal(pathname);
    if IsRoot(pathname) {
      return "/";
    }
    tmp := "/";
    var elems := Elements(pathname);
    ElementsAreElements(pathname);
    for i := 0 to |elems|
      invariant tmp == Render(Walk(elems[..i]))
    {
      assert elems[..i + 1][..i] == elems[..i];
      ghost var b := Walk(elems[..i]);
      WalkIsProper(elems[..i]);
      WalkIsProper(elems[..i + 1]);
      RenderedEnd(Walk(elems[..i + 1]));
      var elem := elems[i];
      OnlyTheRootIsRoot(elem);
      if elem == ".." {
        RemoveElement(b);
        tmp := RemoveFilename(tmp);
        if tmp == "" {
          tmp := "/";
        }
      } else if elem != "." && !IsRoot(elem) {
        AppendElement(b, elem);
        tmp := Append(tmp, WithoutDoubleSlash(elem));
      }
    }
    assert elems[..|elems|] == elems;
    WalkIsProper(elems);
    RenderedEnd(Walk(elems));
    if !IsRoot(tmp) && asDirectory {
      AppendRoot(tmp);
      tmp := Append(tmp, "/");
    }
  }

  /** Appending an absolute path replaces what was there. */
  lemma AppendRoot(path: string)
    ensures Append(path, "/") == "/"
  {
  }

  lemma OnlyTheRootIsRoot(elem: string)
    requires IsElement(elem)
    ensures IsRoot(elem) <==> elem == "/"
    ensures elem != "/" ==> '/' !in elem && WithoutDoubleSlash(elem) == elem
  {
    assert elem != "" ==> elem[0] in elem;
  }

  lemma {:induction false} NothingBetweenSeparators(path: string)
    requires forall i :: 0 <= i < |path| ==> path[i] == '/'
    ensures FileNames(path) == []
  {
    if path != "" {
      assert forall i :: 0 <= i < |path[1..]| ==> path[1..][i] == path[i + 1];
      NothingBetweenSeparators(path[1..]);
      var rest := Fields(path[1..], '/');
      assert ([""] + rest)[1..] == rest;
    }
  }

  lemma RootIsNormal(path: string)
    requires path != ""
    ensures IsRoot(path) ==> Normal(path) == "/"
  {
    if IsRoot(path) {
      NothingBetweenSeparators(path);
      assert Elements(path) == ["/"];
      assert Walk(["/"][..0]) == Built([], true);
    }
  }

  // ---------------------------------------------------------------------------------------------------------
  // The normal form is clean, and normalising it again changes nothing
  // ---------------------------------------------------------------------------------------------------------

  lemma {:induction false} AbsoluteIsRejoined(names: seq<string>)
    ensures Absolute(names) == Rejoin([""] + names, '/')
  {
    if names == [] {
      assert [""] + names == [""];
    } else {
      var init, last := names[..|names| - 1], names[|names| - 1];
      AbsoluteIsRejoined(init);
      RejoinOneMore([""] + init, last);
      assert [""] + names == ([""] + init) + [last];
    }
  }

  lemma {:induction false} RejoinOneMore(parts: seq<string>, last: string)
    requires |parts| > 0
    ensures Rejoin(parts + [last], '/') == Rejoin(parts, '/') + "/" + last
  {
    assert (parts + [last])[1..] == parts[1..] + [last];
    if |parts| > 1 {
      RejoinOneMore(parts[1..], last);
    } else {
      assert parts[1..] + [last] == [last];
    }
  }

  lemma {:induction false} NonEmptyOfNames(names: seq<string>, tail: seq<string>)
    requires forall i :: 0 <= i < |names| ==> names[i] != ""
    ensures NonEmpty(names + tail) == names + NonEmpty(tail)
  {
    if names == [] {
      assert names + tail == tail;
    } else {
      assert (names + tail)[1..] == names[1..] + tail;
      NonEmptyOfNames(names[1..], tail);
    }
  }

  lemma FieldsOfRendered(b: Built)
    requires Proper(b)
    ensures Fields(Render(b), '/') == [""] + b.names + if b.slash then [""] else []
  {
    var tail := if b.slash then [""] else [];
    var parts := [""] + b.names + tail;
    AbsoluteIsRejoined(b.names);
    if b.slash {
      RejoinOneMore([""] + b.names, "");
    } else {
      assert parts == [""] + b.names;
    }
    assert Render(b) == Rejoin(parts, '/');
    FieldsRejoin(parts, '/');
  }

  /** The names of a rendered path are the ones it was rendered from. */
  lemma NamesOfRendered(b: Built)
    requires Proper(b)
    ensures FileNames(Render(b)) == b.names
    ensures Elements(Render(b)) == ["/"] + b.names + if b.slash && b.names != [] then [""] else []
  {
    var tail := if b.slash then [""] else [];
    var parts := [""] + b.names + tail;
    FieldsOfRendered(b);
    NonEmptyOfNames(b.names, tail);
    assert NonEmpty(tail) == [] by {
      assert [""][1..] == [];
    }
    assert parts[1..] == b.names + tail;
    assert NonEmpty(parts) == b.names;
    RenderedEnd(b);
    AbsoluteStart(b);
  }

  lemma {:induction false} AbsoluteStart(b: Built)
    requires Proper(b)
    ensures Render(b) != "" && Render(b)[0] == '/'
    decreases |b.names|
  {
    if |b.names| > 1 {
      AbsoluteStart(Built(b.names[..|b.names| - 1], false));
    }
  }

  lemma {:induction false} WalkOfNames(names: seq<string>)
    requires forall i :: 0 <= i < |names| ==> IsName(names[i])
    ensures Walk(["/"] + names) == Built(names, names == [])
  {
    if names == [] {
      assert ["/"] + names == ["/"] && ["/"][..0] == [];
    } else {
      assert (["/"] + names)[..|names|] == ["/"] + names[..|names| - 1];
      WalkOfNames(names[..|names| - 1]);
    }
  }

  /** A proper path is its own normal form. */
  lemma RenderedIsNormal(b: Built)
    requires Proper(b)
    ensures Render(b) != "" && Normal(Render(b)) == Render(b)
  {
    NamesOfRendered(b);
    RenderedEnd(b);
    WalkOfNames(b.names);
    var start := ["/"] + b.names;
    assert (start + [""])[..|start|] == start;
    assert start + [] == start;
  }

  /** The normal form is absolute, holds no `.` and no `..`, and is its own normal form. */
  lemma NormalIsClean(path: string)
    requires path != ""
    ensures Normal(path) != "" && Normal(path)[0] == '/'
    ensures "." !in Elements(Normal(path)) && ".." !in Elements(Normal(path))
    ensures Normal(Normal(path)) == Normal(path)
  {
    var b := Walk(Elements(path));
    ElementsAreElements(path);
    WalkIsProper(Elements(path));
    hide Elements, Walk, Render, FileNames;
    AbsoluteStart(b);
    NamesOfRendered(b);
    RenderedIsNormal(b);
  }

  // ---------------------------------------------------------------------------------------------------------
  // Against the usual normal form, in which every `..` takes a name away
  // ---------------------------------------------------------------------------------------------------------

  /** What the names come to when each `..` removes the name before it, and does nothing at the root. */
  function Resolved(elems: seq<string>): seq<string> {
    if elems == [] then []
    else
      var before, e := Resolved(elems[..|elems| - 1]), elems[|elems| - 1];
      if e == ".." then (if before == [] then [] else before[..|before| - 1])
      else if e == "." || e == "/" || e == "" then before
      else before + [e]
  }

  /** The last element, dots aside, is a `..`. */
  predicate EndsInUp(elems: seq<string>) {
    elems != [] && (elems[|elems| - 1] == ".." || (elems[|elems| - 1] == "." && EndsInUp(elems[..|elems| - 1])))
  }

  /** Below the root, no `..` comes directly after another one. */
  ghost predicate UpsAreSingle(elems: seq<string>) {
    forall i :: 0 <= i < |elems| && elems[i] == ".." && EndsInUp(elems[..i]) ==> Resolved(elems[..i]) == []
  }

  lemma UpsOneMore(elems: seq<string>)
    requires elems != []
    ensures var init, e := elems[..|elems| - 1], elems[|elems| - 1];
            UpsAreSingle(elems) <==> UpsAreSingle(init) && (e == ".." && EndsInUp(init) ==> Resolved(init) == [])
  {
    hide Resolved, EndsInUp;
    var init := elems[..|elems| - 1];
    assert forall i :: 0 <= i < |init| ==> init[i] == elems[i] && init[..i] == elems[..i];
    assert elems[..|init|] == init;
  }

  /** The loop never removes more than the usual form does; once it has removed less, it stays behind. */
  lemma {:induction false} WalkLagsBehind(elems: seq<string>)
    requires OnlyOutside(elems) && (elems == [] || elems[|elems| - 1] != "")
    ensures var b := Walk(elems);
            && (b.names != [] ==> (b.slash <==> EndsInUp(elems)))
            && (b.names == [] ==> b.slash)
            && (!b.slash ==> Resolved(elems) != [])
            && (if UpsAreSingle(elems) then b.names == Resolved(elems) else |b.names| > |Resolved(elems)|)
  {
    if elems != [] {
      var init := elems[..|elems| - 1];
      assert init != [] ==> init[|init| - 1] == elems[|init| - 1];
      WalkLagsBehind(init);
      UpsOneMore(elems);
      assert elems[|init|] == "/" ==> init == [];
    }
  }

  /** The result has the names of the usual normal form exactly when no `..` follows another one below the root. */
  lemma AgreesExactly(path: string)
    requires path != ""
    ensures FileNames(Normal(path)) == Resolved(Elements(path)) <==> UpsAreSingle(Elements(path))
  {
    var elems := Elements(path);
    ElementsAreElements(path);
    WalkIsProper(elems);
    NamesOfRendered(Walk(elems));
    var init, last := elems[..|elems| - 1], elems[|elems| - 1];
    if last == "" {
      WalkLagsBehind(init);
      UpsOneMore(elems);
    } else {
      WalkLagsBehind(elems);
    }
  }

  /** The elements without each `..` that comes directly, dots aside, after another one. */
  function Collapsed(elems: seq<string>): seq<string> {
    if elems == [] then []
    else
      var init, e := elems[..|elems| - 1], elems[|elems| - 1];
      Collapsed(init) + if e == ".." && EndsInUp(init) then [] else [e]
  }

  lemma ResolvedOneMore(elems: seq<string>, e: string)
    ensures Resolved(elems + [e]) ==
            if e == ".." then (if Resolved(elems) == [] then [] else Resolved(elems)[..|Resolved(elems)| - 1])
            else if e == "." || e == "/" || e == "" then Resolved(elems)
            else Resolved(elems) + [e]
  {
    assert (elems + [e])[..|elems|] == elems;
  }

  lemma {:induction false} WalkIsCollapsed(elems: seq<string>)
    requires OnlyOutside(elems)
    ensures var b := Walk(elems);
            && b.names == Resolved(Collapsed(elems))
            && (b.slash <==> b.names == [] || EndsInUp(elems) || elems[|elems| - 1] == "")
  {
    if elems != [] {
      var init, e := elems[..|elems| - 1], elems[|elems| - 1];
      assert init != [] ==> init[|init| - 1] == elems[|init| - 1];
      assert e == "/" ==> init == [];
      WalkIsCollapsed(init);
      ResolvedOneMore(Collapsed(init), e);
      assert Collapsed(init) + [] == Collapsed(init);
      hide Resolved;
    }
  }

  /**
   Exactly what the normal form is: the root and, each after one separator, the names that are left when a `..` takes
   the name before it away unless another `..` has just done so; with a separator at the end where there are no names,
   where there was one, and where a `..` came last.
   */
  lemma NormalIsExactly(path: string)
    requires path != ""
    ensures var names := Resolved(Collapsed(Elements(path)));
            var trailing := names == [] || EndsWithSeparator(path) || EndsInUp(Elements(path));
            Fields(Normal(path), '/') == [""] + names + if trailing then [""] else []
  {
    var elems := Elements(path);
    ElementsAreElements(path);
    WalkIsProper(elems);
    hide Elements, Walk, Render, Fields, Proper, Resolved, Collapsed, EndsInUp;
    FieldsOfRendered(Walk(elems));
    WalkIsCollapsed(elems);
    LastElement(path);
  }

  lemma LastElement(path: string)
    requires path != ""
    ensures var elems := Elements(path);
            && elems != []
            && (elems[|elems| - 1] == "" ==> EndsWithSeparator(path))
            && (EndsWithSeparator(path) && elems[|elems| - 1] != "" ==> Walk(elems).names == [])
  {
    FileNamesAreElements(path);
    if path[0] != '/' {
      FirstName(path);
    }
    if FileNames(path) == [] {
      assert Walk(["/"][..0]) == Built([], true);
      assert Elements(path) == ["/"];
    } else {
      hide FileNames, Walk;
    }
  }

  lemma FirstName(path: string)
    requires path != "" && path[0] != '/'
    ensures FileNames(path) != []
  {
    assert Fields(path, '/')[0] != "";
  }

  /** The second of two `..` is lost: `/a/b/../..` becomes `/a/`. */
  lemma SecondUpIsLost()
    ensures Normal("/a/b/../..") == "/a/" && Resolved(Elements("/a/b/../..")) == []
  {
    hide Elements, Walk, Resolved, Render;
    ElementsOfExample();
    WalkOfExample();
  }

  lemma ElementsOfExample()
    ensures Elements("/a/b/../..") == ["/", "a", "b", "..", ".."]
  {
    hide Fields;
    var names := ["a", "b", "..", ".."];
    AbsoluteIsRejoined(names);
    FieldsRejoin([""] + names, '/');
    assert Absolute(names) == "/a/b/../.." by {
      assert names[..3] == ["a", "b", ".."] && names[..3][..2] == ["a", "b"] && names[..3][..2][..1] == ["a"];
      assert names[..3][..2][..1][..0] == [];
    }
    assert NonEmpty([""] + names) == names by {
      NonEmptyOfNames(names, []);
      assert names + [] == names && ([""] + names)[1..] == names;
    }
  }

  lemma WalkOfExample()
    ensures Render(Walk(["/", "a", "b", "..", ".."])) == "/a/" && Resolved(["/", "a", "b", "..", ".."]) == []
  {
    hide Walk, Resolved, Absolute;
    var start, once, twice := ["/"] + ["a", "b"], ["/", "a", "b", ".."], ["/", "a", "b", "..", ".."];
    WalkOfNames(["a", "b"]);
    ResolvedNames(["a", "b"]);
    WalkOneMore(start, "..");
    WalkOneMore(once, "..");
    assert once == start + [".."] && twice == once + [".."];
    assert ["a", "b"][..1] == ["a"] && ["a"][..0] == [];
    AbsoluteOfOne("a");
  }

  lemma AbsoluteOfOne(name: string)
    ensures Absolute([name]) == "/" + name
  {
    assert [name][..0] == [];
  }

  lemma {:induction false} ResolvedNames(names: seq<string>)
    requires forall i :: 0 <= i < |names| ==> IsName(names[i])
    ensures Resolved(["/"] + names) == names
  {
    if names == [] {
      assert ["/"] + names == ["/"] && ["/"][..0] == [];
    } else {
      assert (["/"] + names)[..|names|] == ["/"] + names[..|names| - 1];
      ResolvedNames(names[..|names| - 1]);
    }
  }

  lemma WalkOneMore(elems: seq<string>, elem: string)
    ensures Walk(elems + [elem]) == Step(Walk(elems), elem)
    ensures elem == ".." ==> Resolved(elems + [elem]) == if Resolved(elems) == [] then [] else Resolved(elems)[..|Resolved(elems)| - 1]
  {
    assert (elems + [elem])[..|elems|] == elems;
  }
}
