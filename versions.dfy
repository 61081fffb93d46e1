/**
 * System.Version as the artifact code uses it: two to four non-negative
 * Int32 components (build and revision are -1 when absent), rendered with
 * only the defined components, parsed from dot-separated decimal text and
 * ordered component by component.
 */
module Versions {
  import opened Wrappers
  import opened Strings

  const Int32Max: int := 0x7fff_ffff

  datatype Version = Version(major: int, minor: int, build: int, revision: int)

  /** The invariant System.Version keeps for its components. */
  predicate WellFormed(v: Version)
  {
    0 <= v.major <= Int32Max && 0 <= v.minor <= Int32Max
    && -1 <= v.build <= Int32Max && -1 <= v.revision <= Int32Max
    && (v.build == -1 ==> v.revision == -1)
  }

  /** The defined components, in order. */
  function Components(v: Version): (cs: seq<nat>)
    requires WellFormed(v)
    ensures 2 <= |cs| <= 4
  {
    [v.major as nat, v.minor as nat]
    + (if v.build >= 0 then [v.build as nat] else [])
    + (if v.revision >= 0 then [v.revision as nat] else [])
  }

  function RenderAll(cs: seq<nat>): (r: seq<string>)
    ensures |r| == |cs|
    ensures forall k :: 0 <= k < |cs| ==> r[k] == NatToString(cs[k])
  {
    if cs == [] then [] else [NatToString(cs[0])] + RenderAll(cs[1..])
  }

  /** Version.ToString(): the defined components joined by '.'. */
  function VersionText(v: Version): string
    requires WellFormed(v)
  {
    Join(RenderAll(Components(v)), '.')
  }

  /** Parses every field as a non-negative Int32. */
  function ParseAll(parts: seq<string>): (r: Option<seq<nat>>)
    ensures r.Some? ==> |r.value| == |parts|
    ensures r.Some? ==> forall k :: 0 <= k < |parts| ==> ParseNat(parts[k]) == Some(r.value[k]) && r.value[k] <= Int32Max
    ensures r.None? ==> exists k :: 0 <= k < |parts| && (ParseNat(parts[k]).None? || ParseNat(parts[k]).value > Int32Max)
  {
    if parts == [] then Some([])
    else
      var head := ParseNat(parts[0]);
      if head.None? || head.value > Int32Max then None
      else
        var tail := ParseAll(parts[1..]);
        if tail.None? then
          ghost var k :| 0 <= k < |parts[1..]| && (ParseNat(parts[1..][k]).None? || ParseNat(parts[1..][k]).value > Int32Max);
          assert parts[1..][k] == parts[k + 1];
          None
        else Some([head.value] + tail.value)
  }

  /** new Version(string): two to four dot-separated non-negative Int32 fields, otherwise an error. */
  function ParseVersion(s: string): (r: Option<Version>)
    ensures r.Some? ==> WellFormed(r.value)
  {
    var parts := Split(s, {'.'});
    if |parts| < 2 || |parts| > 4 then None
    else
      match ParseAll(parts)
      case None => None
      case Some(cs) =>
        Some(Version(cs[0], cs[1], if |cs| >= 3 then cs[2] else -1, if |cs| == 4 then cs[3] else -1))
  }

  /** Parsing the rendered text of a version gives the version back. */
  lemma ParseVersionText(v: Version)
    requires WellFormed(v)
    ensures ParseVersion(VersionText(v)) == Some(v)
  {
    var cs := Components(v);
    var texts := RenderAll(cs);
    forall k | 0 <= k < |texts|
      ensures NoneOf(texts[k], {'.'})
    {
      assert AllDigits(NatToString(cs[k]));
    }
    SplitJoin(texts, '.', {'.'});
    forall k | 0 <= k < |texts|
      ensures ParseNat(texts[k]) == Some(cs[k])
    {
      ParseNatToString(cs[k]);
    }
    var parsed := ParseAll(texts);
    assert parsed.Some?;
    assert parsed.value == cs;
  }

  /** A version's text holds only digits and dots. */
  lemma VersionTextChars(v: Version)
    requires WellFormed(v)
    ensures forall i :: 0 <= i < |VersionText(v)| ==> IsDigit(VersionText(v)[i]) || VersionText(v)[i] == '.'
    ensures |VersionText(v)| >= 3
  {
    var texts := RenderAll(Components(v));
    JoinChars(texts);
    assert VersionText(v) == texts[0] + ['.'] + Join(texts[1..], '.');
  }

  lemma {:induction false} JoinChars(texts: seq<string>)
    requires forall k :: 0 <= k < |texts| ==> AllDigits(texts[k])
    ensures forall i :: 0 <= i < |Join(texts, '.')| ==> IsDigit(Join(texts, '.')[i]) || Join(texts, '.')[i] == '.'
  {
    if |texts| > 1 {
      JoinChars(texts[1..]);
    }
  }

  /** Two different well-formed versions render differently. */
  lemma VersionTextInjective(v: Version, w: Version)
    requires WellFormed(v) && WellFormed(w)
    requires VersionText(v) == VersionText(w)
    ensures v == w
  {
    ParseVersionText(v);
    ParseVersionText(w);
  }

  // ---------------------------------------------------------------------
  // Ordering (Version.CompareTo): component by component, -1 below 0

  predicate Less(a: Version, b: Version)
  {
    if a.major != b.major then a.major < b.major
    else if a.minor != b.minor then a.minor < b.minor
    else if a.build != b.build then a.build < b.build
    else a.revision < b.revision
  }

  /** a >= b. */
  predicate AtLeast(a: Version, b: Version)
  {
    !Less(a, b)
  }

  lemma LessIrreflexive(a: Version)
    ensures !Less(a, a)
  {
  }

  lemma LessTransitive(a: Version, b: Version, c: Version)
    requires Less(a, b) && Less(b, c)
    ensures Less(a, c)
  {
  }

  /** The order is total: two versions are equal or one is below the other. */
  lemma LessTotal(a: Version, b: Version)
    ensures a == b || Less(a, b) || Less(b, a)
  {
  }
}
