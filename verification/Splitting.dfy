/** Splitting text at a separator: the reference definition, and the three loops of the repository that do it. */
module Splitting {

  /** The fields of `s`: one more than it has separators. */
  function Fields(s: string, sep: char): (r: seq<string>)
    ensures |r| > 0
  {
    if s == "" then [""]
    else
      var rest := Fields(s[1..], sep);
      if s[0] == sep then [""] + rest else [[s[0]] + rest[0]] + rest[1..]
  }

  /** The parts with a separator between each two. */
  function Rejoin(parts: seq<string>, sep: char): string
    requires |parts| > 0
  {
    if |parts| == 1 then parts[0] else parts[0] + [sep] + Rejoin(parts[1..], sep)
  }

  ghost predicate SepFree(parts: seq<string>, sep: char) {
    forall i :: 0 <= i < |parts| ==> sep !in parts[i]
  }

  lemma {:induction false} FieldsOfFirst(a: string, rest: string, sep: char)
    requires sep !in a
    ensures Fields(a + rest, sep) == [a + Fields(rest, sep)[0]] + Fields(rest, sep)[1..]
  {
    if a == "" {
      assert a + rest == rest && a + Fields(rest, sep)[0] == Fields(rest, sep)[0];
    } else {
      assert (a + rest)[1..] == a[1..] + rest;
      FieldsOfFirst(a[1..], rest, sep);
      assert [a[0]] + (a[1..] + Fields(rest, sep)[0]) == a + Fields(rest, sep)[0];
    }
  }

  lemma FieldsOfWhole(a: string, sep: char)
    requires sep !in a
    ensures Fields(a, sep) == [a]
  {
    FieldsOfFirst(a, "", sep);
    assert a + "" == a;
  }

  lemma FieldsAfterSep(a: string, rest: string, sep: char)
    requires sep !in a
    ensures Fields(a + [sep] + rest, sep) == [a] + Fields(rest, sep)
  {
    assert a + [sep] + rest == a + ([sep] + rest);
    FieldsOfFirst(a, [sep] + rest, sep);
    assert ([sep] + rest)[1..] == rest;
    assert a + "" == a;
  }

  /** The fields rejoin to the text, and none of them holds a separator. */
  lemma {:induction false} RejoinFields(s: string, sep: char)
    ensures Rejoin(Fields(s, sep), sep) == s && SepFree(Fields(s, sep), sep)
  {
    if s != "" {
      var rest := Fields(s[1..], sep);
      RejoinFields(s[1..], sep);
      if s[0] == sep {
        assert ([""] + rest)[1..] == rest;
      } else {
        var all := [[s[0]] + rest[0]] + rest[1..];
        if |rest| > 1 {
          assert all[1..] == rest[1..];
        }
      }
    }
  }

  /** Separator-free parts are the fields of what they rejoin to, so splitting is the only such decomposition. */
  lemma {:induction false} FieldsRejoin(parts: seq<string>, sep: char)
    requires |parts| > 0 && SepFree(parts, sep)
    ensures Fields(Rejoin(parts, sep), sep) == parts
  {
    if |parts| == 1 {
      FieldsOfWhole(parts[0], sep);
    } else {
      FieldsRejoin(parts[1..], sep);
      FieldsAfterSep(parts[0], Rejoin(parts[1..], sep), sep);
    }
  }

  function Count(s: string, c: char): nat {
    if s == "" then 0 else (if s[0] == c then 1 else 0) + Count(s[1..], c)
  }

  lemma {:induction false} FieldCount(s: string, sep: char)
    ensures |Fields(s, sep)| == Count(s, sep) + 1
  {
    if s != "" {
      FieldCount(s[1..], sep);
    }
  }

  /** `end` is where the first separator at or after `start` stands, or the length of the text. */
  ghost predicate FirstAt(text: string, sep: char, start: nat, end: nat) {
    start <= end <= |text| && sep !in text[start..end] && (end < |text| ==> text[end] == sep)
  }

  /** `std::string::find` of one character; the length of the text stands for npos. */
  method Find(text: string, sep: char, start: nat) returns (end: nat)
    requires start <= |text|
    ensures start <= end <= |text| && FirstAt(text, sep, start, end)
  {
    end := start;
    while end < |text| && text[end] != sep
      invariant start <= end <= |text| && sep !in text[start..end]
    {
      end := end + 1;
    }
  }

  lemma FieldsFrom(text: string, sep: char, start: nat, end: nat)
    requires start <= end <= |text| && FirstAt(text, sep, start, end)
    ensures Fields(text[start..], sep) ==
            if end < |text| then [text[start..end]] + Fields(text[end + 1..], sep) else [text[start..]]
  {
    if end < |text| {
      FieldsAfterSep(text[start..end], text[end + 1..], sep);
      assert text[start..] == text[start..end] + [sep] + text[end + 1..];
    } else {
      assert text[start..end] == text[start..];
      FieldsOfWhole(text[start..], sep);
    }
  }

  lemma OneFieldMore(text: string, sep: char, start: nat, end: nat, all: seq<string>, tokens: seq<string>)
    requires start <= end < |text| && FirstAt(text, sep, start, end) && all == tokens + Fields(text[start..], sep)
    ensures all == tokens + [text[start..end]] + Fields(text[end + 1..], sep)
  {
    FieldsFrom(text, sep, start, end);
    hide Fields, FirstAt;
  }

  /** The library's `split`. */
  method Split(text: string, sep: char) returns (tokens: seq<string>)
    ensures tokens == Fields(text, sep)
  {
    tokens := [];
    var start := 0;
    assert text[0..] == text;
    hide Fields, FirstAt;
    var end := Find(text, sep, start);
    while end < |text|
      invariant start <= end <= |text| && FirstAt(text, sep, start, end)
      invariant Fields(text, sep) == tokens + Fields(text[start..], sep)
      decreases |text| - start
    {
      OneFieldMore(text, sep, start, end, Fields(text, sep), tokens);
      tokens := tokens + [text[start..end]];
      start := end + 1;
      end := Find(text, sep, start);
    }
    FieldsFrom(text, sep, start, end);
    tokens := tokens + [text[start..]];
  }

  /** The fields without an empty last one. */
  function Lines(s: string, sep: char): seq<string> {
    var fields := Fields(s, sep);
    if fields[|fields| - 1] == "" then fields[..|fields| - 1] else fields
  }

  lemma LinesAfterSep(a: string, rest: string, sep: char)
    requires sep !in a
    ensures Lines(a + [sep] + rest, sep) == [a] + Lines(rest, sep)
  {
    FieldsAfterSep(a, rest, sep);
    var fields := Fields(rest, sep);
    assert ([a] + fields)[..|fields|] == [a] + fields[..|fields| - 1];
  }

  lemma LinesOfWhole(a: string, sep: char)
    requires sep !in a && a != ""
    ensures Lines(a, sep) == [a]
  {
    FieldsOfWhole(a, sep);
  }

  lemma LinesOfNothing(sep: char)
    ensures Lines("", sep) == []
  {
  }

  /** The command line tool's `split`: getline fails only when there is nothing left to extract. */
  method SplitWithGetline(s: string, delimiter: char) returns (tokens: seq<string>)
    ensures tokens == Lines(s, delimiter)
  {
    tokens := [];
    var pos := 0;
    LinesOfNothing(delimiter);
    hide Lines;
    assert s[0..] == s;
    while pos < |s|
      invariant pos <= |s|
      invariant Lines(s, delimiter) == tokens + Lines(s[pos..], delimiter)
      decreases |s| - pos
    {
      var end := Find(s, delimiter, pos);
      if end < |s| {
        LinesAfterSep(s[pos..end], s[end + 1..], delimiter);
        assert s[pos..] == s[pos..end] + [delimiter] + s[end + 1..];
        tokens := tokens + [s[pos..end]];
        pos := end + 1;
      } else {
        assert s[pos..end] == s[pos..] && s[end..] == "";
        LinesOfWhole(s[pos..], delimiter);
        tokens := tokens + [s[pos..end]];
        pos := end;
      }
    }
    assert s[pos..] == "";
  }

  /**
   The two `split`s agree exactly on the texts that do not end in a separator and are not empty; on the others the
   command line tool's gives the same fields but for one empty one at the end.
   */
  lemma SplitsAgreeExactly(s: string, sep: char)
    ensures Lines(s, sep) == Fields(s, sep) <==> s != "" && s[|s| - 1] != sep
    ensures Lines(s, sep) + [""] == Fields(s, sep) <==> s == "" || s[|s| - 1] == sep
  {
    LastField(s, sep);
  }

  lemma {:induction false} LastField(s: string, sep: char)
    ensures var fields := Fields(s, sep); fields[|fields| - 1] == "" <==> s == "" || s[|s| - 1] == sep
  {
    if s != "" {
      LastField(s[1..], sep);
    }
  }

  /** The tokens of a command line: `views::split` gives none for the empty text. */
  function Tokens(s: string): seq<string> {
    if s == "" then [] else Fields(s, ' ')
  }

  /** `command::as_vector` */
  method AsVector(cmdline: string) returns (tokens: seq<string>)
    ensures tokens == Tokens(cmdline)
  {
    tokens := [];
    var pos, trailing := 0, cmdline != "";
    assert cmdline[0..] == cmdline;
    hide Fields, FirstAt;
    while trailing
      invariant pos <= |cmdline|
      invariant if trailing then Tokens(cmdline) == tokens + Fields(cmdline[pos..], ' ') else Tokens(cmdline) == tokens
      decreases trailing, |cmdline| - pos
    {
      var end := Find(cmdline, ' ', pos);
      if end < |cmdline| {
        OneFieldMore(cmdline, ' ', pos, end, Tokens(cmdline), tokens);
        tokens := tokens + [cmdline[pos..end]];
        pos := end + 1;
      } else {
        FieldsFrom(cmdline, ' ', pos, end);
        assert cmdline[pos..end] == cmdline[pos..];
        tokens := tokens + [cmdline[pos..end]];
        trailing := false;
      }
    }
  }
}
