/** Parsing of `src=dst;src=dst` dataset routes, and the text they are written as. */
module DatasetRoutes {
  import opened Common
  import opened Splitting

  datatype Route = Route(source: string, target: string)

  /** One segment of a route list. */
  function ParseSegment(segment: string): Option<Route> {
    var parts := Fields(segment, '=');
    if |parts| == 2 then Some(Route(parts[0], parts[1])) else None
  }

  function ParseSegments(segments: seq<string>): Option<seq<Route>> {
    if segments == [] then Some([])
    else
      match (ParseSegment(segments[0]), ParseSegments(segments[1..]))
      case (Some(route), Some(rest)) => Some([route] + rest)
      case _ => None
  }

  function Parse(routes: string): Option<seq<Route>> {
    if routes == "" then None else ParseSegments(Fields(routes, ';'))
  }

  function PrintRoute(r: Route): string {
    r.source + "=" + r.target
  }

  function PrintSegments(rs: seq<Route>): (segments: seq<string>)
    ensures |segments| == |rs| && forall i :: 0 <= i < |rs| ==> segments[i] == PrintRoute(rs[i])
  {
    seq(|rs|, i requires 0 <= i < |rs| => PrintRoute(rs[i]))
  }

  function Print(rs: seq<Route>): string
    requires rs != []
  {
    Rejoin(PrintSegments(rs), ';')
  }

  /** No part of the route holds a character that has a meaning in the text. */
  predicate Plain(r: Route) {
    '=' !in r.source && '=' !in r.target && ';' !in r.source && ';' !in r.target
  }

  lemma SegmentRoundTrip(r: Route)
    requires Plain(r)
    ensures ParseSegment(PrintRoute(r)) == Some(r) && ';' !in PrintRoute(r)
  {
    FieldsAfterSep(r.source, r.target, '=');
    FieldsOfWhole(r.target, '=');
  }

  lemma {:induction false} SegmentsRoundTrip(rs: seq<Route>)
    requires forall i :: 0 <= i < |rs| ==> Plain(rs[i])
    ensures ParseSegments(PrintSegments(rs)) == Some(rs) && SepFree(PrintSegments(rs), ';')
  {
    if rs != [] {
      SegmentRoundTrip(rs[0]);
      SegmentsRoundTrip(rs[1..]);
      assert [rs[0]] + rs[1..] == rs;
      assert PrintSegments(rs)[1..] == PrintSegments(rs[1..]);
      assert forall i :: 0 < i < |rs| ==> PrintSegments(rs)[i] == PrintSegments(rs[1..])[i - 1];
    } else {
      assert PrintSegments(rs) == [];
    }
  }

  /** Printing plain routes and parsing the text gives them back. */
  lemma ParseOfPrint(rs: seq<Route>)
    requires rs != [] && forall i :: 0 <= i < |rs| ==> Plain(rs[i])
    ensures Parse(Print(rs)) == Some(rs)
  {
    SegmentsRoundTrip(rs);
    FieldsRejoin(PrintSegments(rs), ';');
    assert Print(rs) != "" by {
      FieldsOfWhole("", ';');
      assert |PrintSegments(rs)[0]| > 0;
    }
  }

  lemma PrintOfSegment(segment: string)
    requires ParseSegment(segment).Some? && ';' !in segment
    ensures PrintRoute(ParseSegment(segment).value) == segment && Plain(ParseSegment(segment).value)
  {
    var parts := Fields(segment, '=');
    RejoinFields(segment, '=');
    assert Rejoin(parts[1..], '=') == parts[1];
    assert segment == parts[0] + "=" + parts[1];
    assert forall c :: c in parts[0] || c in parts[1] ==> c in segment;
    assert parts[0] == Fields(segment, '=')[0];
  }

  lemma {:induction false} PrintOfSegments(segments: seq<string>)
    requires ParseSegments(segments).Some? && SepFree(segments, ';')
    ensures PrintSegments(ParseSegments(segments).value) == segments
    ensures forall i :: 0 <= i < |segments| ==> Plain(ParseSegments(segments).value[i])
  {
    if segments != [] {
      PrintOfSegment(segments[0]);
      PrintOfSegments(segments[1..]);
      var rs := ParseSegments(segments).value;
      assert rs[1..] == ParseSegments(segments[1..]).value;
      assert forall i :: 0 < i < |rs| ==> PrintSegments(rs)[i] == PrintSegments(rs[1..])[i - 1];
    }
  }

  /** Printing what a text parses to gives the text back: parsing loses nothing. */
  lemma PrintOfParse(routes: string)
    requires Parse(routes).Some?
    ensures Parse(routes).value != [] && Print(Parse(routes).value) == routes
    ensures forall i :: 0 <= i < |Parse(routes).value| ==> Plain(Parse(routes).value[i])
  {
    RejoinFields(routes, ';');
    PrintOfSegments(Fields(routes, ';'));
  }

  /** Each segment holds exactly one '='. */
  ghost predicate OneEqualsEach(segments: seq<string>) {
    forall i :: 0 <= i < |segments| ==> Count(segments[i], '=') == 1
  }

  lemma {:induction false} SegmentsParseExactly(segments: seq<string>)
    ensures ParseSegments(segments).Some? <==> OneEqualsEach(segments)
  {
    if segments != [] {
      FieldCount(segments[0], '=');
      SegmentsParseExactly(segments[1..]);
      assert forall i :: 0 < i < |segments| ==> segments[i] == segments[1..][i - 1];
    }
  }

  /** A text parses exactly if it is not empty and each of its ';' fields holds exactly one '='. */
  lemma ParsesExactly(routes: string)
    ensures Parse(routes).Some? <==> routes != "" && OneEqualsEach(Fields(routes, ';'))
  {
    SegmentsParseExactly(Fields(routes, ';'));
  }

  /** The routes of the leading segments, up to the first that does not parse or the first there is no memory for. */
  ghost predicate LeadingRoutes(segments: seq<string>, memory: nat, rs: seq<Route>) {
    && |rs| <= |segments| && |rs| <= memory
    && ParseSegments(segments[..|rs|]) == Some(rs)
    && (|rs| == |segments| || |rs| == memory || ParseSegment(segments[|rs|]).None?)
  }

  /**
   scord_utils_parse_dataset_routes. None stands for a null `routes`, `outputs` for both output pointers being
   non-null, and `memory` for the number of route objects that can be allocated before memory runs out; the array
   that receives them needs one more. The array is only written on success; on an error the route objects created so
   far are lost, and `leaked` holds them.
   */
  method ParseDatasetRoutes(routes: Option<string>, outputs: bool, memory: nat)
    returns (ec: ErrorCode, parsed: seq<Route>, leaked: seq<Route>)
    ensures ec != Success ==> parsed == []
    ensures routes.None? || !outputs || routes.value == "" ==> ec == BadArgs
    ensures routes.Some? && outputs ==> (ec == Success <==> Parse(routes.value).Some? && |Parse(routes.value).value| < memory)
    ensures ec == Success ==> Some(parsed) == Parse(routes.value) && leaked == []
    ensures routes.Some? && outputs && routes.value != "" && ec != Success ==>
              var segments := Fields(routes.value, ';');
              && LeadingRoutes(segments, memory, leaked)
              && ec == (if |leaked| < |segments| && Count(segments[|leaked|], '=') != 1 then BadArgs else OutOfMemory)
    ensures !(routes.Some? && outputs && routes.value != "") ==> leaked == []
  {
    parsed, leaked := [], [];
    if routes.None? || !outputs || routes.value == "" {
      return BadArgs, [], [];
    }
    var segments := Split(routes.value, ';');
    var tmp := [];
    for i := 0 to |segments|
      invariant |tmp| == i <= memory
      invariant ParseSegments(segments[..i]) == Some(tmp)
    {
      var parts := Split(segments[i], '=');
      SegmentByOne(segments[..i], segments[i]);
      FieldCount(segments[i], '=');
      assert segments[..i] + [segments[i]] == segments[..i + 1];
      if |parts| != 2 {
        PrefixMustParse(segments, i + 1);
        return BadArgs, [], tmp;
      }
      if i == memory {
        SegmentsLength(segments);
        return OutOfMemory, [], tmp;
      }
      tmp := tmp + [Route(parts[0], parts[1])];
    }
    assert segments[..|segments|] == segments;
    if |tmp| == memory {
      return OutOfMemory, [], tmp;
    }
    return Success, tmp, [];
  }

  lemma {:induction false} SegmentByOne(segments: seq<string>, segment: string)
    ensures ParseSegments(segments + [segment]) ==
              match (ParseSegments(segments), ParseSegment(segment))
              case (Some(rs), Some(r)) => Some(rs + [r])
              case _ => None
  {
    if segments == [] {
      assert segments + [segment] == [segment];
      assert [segment][1..] == [];
      assert forall r: Route :: [r] + [] == [] + [r];
    } else {
      assert (segments + [segment])[1..] == segments[1..] + [segment];
      SegmentByOne(segments[1..], segment);
      match (ParseSegment(segments[0]), ParseSegments(segments[1..]), ParseSegment(segment)) {
        case (Some(first), Some(rest), Some(r)) => assert [first] + (rest + [r]) == [first] + rest + [r];
        case _ =>
      }
    }
  }

  lemma {:induction false} PrefixMustParse(segments: seq<string>, n: nat)
    requires n <= |segments| && ParseSegments(segments[..n]).None?
    ensures ParseSegments(segments).None?
    decreases |segments| - n
  {
    if n < |segments| {
      SegmentByOne(segments[..n], segments[n]);
      assert segments[..n] + [segments[n]] == segments[..n + 1];
      PrefixMustParse(segments, n + 1);
    } else {
      assert segments[..n] == segments;
    }
  }

  lemma {:induction false} SegmentsLength(segments: seq<string>)
    ensures ParseSegments(segments).Some? ==> |ParseSegments(segments).value| == |segments|
  {
    if segments != [] {
      SegmentsLength(segments[1..]);
    }
  }
}
