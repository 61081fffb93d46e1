/**
 * ArtifactReader: filtering the artifact listings by version prefix and
 * country, picking the latest version, the local-first lookup and the
 * next-major / next-minor choice between the public-preview and the insider
 * accounts. Remote listings and the local cache listing are inputs.
 */
module Catalog {
  import opened Wrappers
  import opened Strings
  import opened Versions
  import opened Uris
  import opened Artifacts

  /**
   * What the reader can see: the blob listing of every (account, type)
   * container, and the local cache listing, whose entries are null for
   * directories that do not parse; listing a cache whose root folder is
   * missing raises DirectoryNotFoundException instead.
   */
  datatype Listings = Listings(remote: map<(Account, ArtifactType), seq<Artifact>>, local: Outcome<seq<Option<Artifact>>>)

  /** The listing of one container; a container nobody filled is empty. */
  function Remote(store: Listings, a: Account, t: ArtifactType): seq<Artifact>
  {
    if (a, t) in store.remote then store.remote[(a, t)] else []
  }

  predicate AllValid(s: seq<Artifact>)
  {
    forall i :: 0 <= i < |s| ==> ValidArtifact(s[i])
  }

  predicate ValidItems(items: seq<Option<Artifact>>)
  {
    forall i :: 0 <= i < |items| ==> items[i].Some? ==> ValidArtifact(items[i].value)
  }

  /** Every artifact the reader can see has a System.Version. */
  predicate ValidListings(store: Listings)
  {
    (store.local.Ok? ==> ValidItems(store.local.value))
    && forall k, i :: k in store.remote && 0 <= i < |store.remote[k]| ==> ValidArtifact(store.remote[k][i])
  }

  lemma RemoteValid(store: Listings, a: Account, t: ArtifactType)
    requires ValidListings(store)
    ensures AllValid(Remote(store, a, t))
  {
  }

  /** A listing without nulls, as the local items it would be. */
  function Lift(s: seq<Artifact>): (r: seq<Option<Artifact>>)
    ensures |r| == |s| && forall i :: 0 <= i < |s| ==> r[i] == Some(s[i])
  {
    if s == [] then [] else [Some(s[0])] + Lift(s[1..])
  }

  predicate HasNull(items: seq<Option<Artifact>>)
  {
    exists i :: 0 <= i < |items| && items[i].None?
  }

  /** The artifacts of a listing without nulls. */
  function Values(items: seq<Option<Artifact>>): (r: seq<Artifact>)
    requires !HasNull(items)
    ensures |r| == |items| && forall i :: 0 <= i < |items| ==> items[i] == Some(r[i])
  {
    if items == [] then [] else [items[0].value] + Values(items[1..])
  }

  // ---------------------------------------------------------------------
  // GetAll

  /**
   * The GetAll filter on one artifact: an empty country matches every
   * country, otherwise the country must be equal ignoring case; an empty
   * prefix matches every version, otherwise the version text must start
   * with it ignoring case.
   */
  predicate Matches(x: Artifact, prefix: string, country: string)
    requires ValidArtifact(x)
  {
    (country == "" || EqualsIgnoreCase(x.country, country))
    && (prefix == "" || StartsWithIgnoreCase(VersionText(x.version), prefix))
  }

  /** GetAll over a listing without nulls: the matching artifacts in listing order. */
  function Matching(s: seq<Artifact>, prefix: string, country: string): (r: seq<Artifact>)
    requires AllValid(s)
    ensures AllValid(r)
    ensures forall x :: x in r <==> x in s && Matches(x, prefix, country)
  {
    if s == [] then []
    else
      var rest := Matching(s[1..], prefix, country);
      assert forall x :: x in s <==> x == s[0] || x in s[1..];
      if Matches(s[0], prefix, country) then [s[0]] + rest else rest
  }

  /** The filter distributes over concatenation, so it keeps the listing order. */
  lemma {:induction false} MatchingAppend(s: seq<Artifact>, t: seq<Artifact>, prefix: string, country: string)
    requires AllValid(s) && AllValid(t)
    ensures Matching(s + t, prefix, country) == Matching(s, prefix, country) + Matching(t, prefix, country)
  {
    if s != [] {
      assert (s + t)[0] == s[0] && (s + t)[1..] == s[1..] + t;
      MatchingAppend(s[1..], t, prefix, country);
      var rs := Matching(s[1..], prefix, country);
      if Matches(s[0], prefix, country) {
        assert Matching(s + t, prefix, country) == [s[0]] + (rs + Matching(t, prefix, country));
        assert [s[0]] + (rs + Matching(t, prefix, country)) == ([s[0]] + rs) + Matching(t, prefix, country);
      }
    } else {
      assert s + t == t;
    }
  }

  /** With no filter every artifact is kept. */
  lemma {:induction false} MatchingNoFilter(s: seq<Artifact>)
    requires AllValid(s)
    ensures Matching(s, "", "") == s
  {
    if s != [] {
      MatchingNoFilter(s[1..]);
      assert s == [s[0]] + s[1..];
    }
  }

  /**
   * One step of GetAll's two Where clauses on an entry: the country test
   * runs first and dereferences the entry only when the country filter is
   * non-empty; the prefix test likewise.
   */
  function Keep(item: Option<Artifact>, prefix: string, country: string): (r: Outcome<bool>)
    requires item.Some? ==> ValidArtifact(item.value)
    ensures r.Fail? <==> item.None? && (country != "" || prefix != "")
    ensures r.Fail? ==> r.error == NullReferenceException
    ensures r.Ok? && item.Some? ==> (r.value <==> Matches(item.value, prefix, country))
    ensures r.Ok? && item.None? ==> r.value
  {
    if country != "" && item.None? then Fail(NullReferenceException)
    else if country != "" && !EqualsIgnoreCase(item.value.country, country) then Ok(false)
    else if prefix != "" && item.None? then Fail(NullReferenceException)
    else Ok(item.None? || Matches(item.value, prefix, country))
  }

  /**
   * ArtifactReader.GetAll over a listing that may hold nulls: the entries
   * the filter keeps, in order, or the NullReferenceException of the first
   * null entry that a non-empty filter dereferences.
   */
  function GetAll(items: seq<Option<Artifact>>, prefix: string, country: string): (r: Outcome<seq<Option<Artifact>>>)
    requires ValidItems(items)
    ensures r.Fail? <==> HasNull(items) && (country != "" || prefix != "")
    ensures r.Fail? ==> r.error == NullReferenceException
    ensures r.Ok? ==> ValidItems(r.value)
    ensures r.Ok? ==> forall j :: 0 <= j < |r.value| ==> r.value[j] in items
  {
    if items == [] then Ok([])
    else
      var keep := Keep(items[0], prefix, country);
      var rest := GetAll(items[1..], prefix, country);
      assert HasNull(items) <==> items[0].None? || HasNull(items[1..]) by {
        if HasNull(items) {
          var i :| 0 <= i < |items| && items[i].None?;
          if i > 0 {
            assert items[1..][i - 1].None?;
          }
        }
        if HasNull(items[1..]) {
          var i :| 0 <= i < |items[1..]| && items[1..][i].None?;
          assert items[i + 1].None?;
        }
      }
      if keep.Fail? then Fail(keep.error)
      else if rest.Fail? then Fail(rest.error)
      else
        assert forall x :: x in rest.value ==> x in items[1..];
        Ok(if keep.value then [items[0]] + rest.value else rest.value)
  }

  /** On a listing without nulls, GetAll never fails and is the plain filter. */
  lemma {:induction false} GetAllLift(s: seq<Artifact>, prefix: string, country: string)
    requires AllValid(s)
    ensures GetAll(Lift(s), prefix, country) == Ok(Lift(Matching(s, prefix, country)))
  {
    if s != [] {
      assert Lift(s)[1..] == Lift(s[1..]);
      GetAllLift(s[1..], prefix, country);
      var rest := Matching(s[1..], prefix, country);
      assert Lift([s[0]] + rest) == [Some(s[0])] + Lift(rest);
    }
  }

  /** With no filter at all, null entries pass through GetAll untouched. */
  lemma {:induction false} GetAllNoFilter(items: seq<Option<Artifact>>)
    requires ValidItems(items)
    ensures GetAll(items, "", "") == Ok(items)
  {
    if items != [] {
      GetAllNoFilter(items[1..]);
      assert items == [items[0]] + items[1..];
    }
  }

  /** The version filter is textual: "24.1" also selects 24.10.x. */
  lemma PrefixIsTextual(x: Artifact)
    requires ValidArtifact(x) && x.version == Version(24, 10, 0, -1)
    ensures Matches(x, "24.1", "")
  {
    var text := VersionText(x.version);
    assert NatToString(24) == "24";
    assert NatToString(10) == "10";
    assert NatToString(0) == "0";
    assert RenderAll([24, 10, 0]) == ["24", "10", "0"];
    assert text == "24.10.0";
    LowerNoUpper(text);
    LowerNoUpper("24.1");
  }

  // ---------------------------------------------------------------------
  // GetLatest: OrderByDescending(Version).FirstOrDefault()

  /** The index of the first artifact of maximal version (the sort is stable). */
  function LatestIndex(s: seq<Artifact>): (i: nat)
    requires |s| > 0
    ensures i < |s|
    ensures forall j :: 0 <= j < |s| ==> AtLeast(s[i].version, s[j].version)
    ensures forall j :: 0 <= j < i ==> Less(s[j].version, s[i].version)
  {
    if |s| == 1 then 0
    else
      var k := LatestIndex(s[..|s| - 1]);
      assert forall j :: 0 <= j < |s| - 1 ==> s[..|s| - 1][j] == s[j];
      if Less(s[k].version, s[|s| - 1].version) then
        forall j | 0 <= j < |s| - 1
          ensures Less(s[j].version, s[|s| - 1].version)
        {
          LessTotal(s[j].version, s[k].version);
          if Less(s[j].version, s[k].version) {
            LessTransitive(s[j].version, s[k].version, s[|s| - 1].version);
          }
        }
        |s| - 1
      else
        LessTotal(s[k].version, s[|s| - 1].version);
        k
  }

  /** The two properties pin the index down: any index with them is LatestIndex. */
  lemma LatestIndexUnique(s: seq<Artifact>, i: nat)
    requires i < |s|
    requires forall j :: 0 <= j < |s| ==> AtLeast(s[i].version, s[j].version)
    requires forall j :: 0 <= j < i ==> Less(s[j].version, s[i].version)
    ensures LatestIndex(s) == i
  {
    var k := LatestIndex(s);
    LessTotal(s[i].version, s[k].version);
  }

  /** The latest artifact of a listing without nulls, None when it is empty. */
  function LatestOf(s: seq<Artifact>): (r: Option<Artifact>)
    ensures r.None? <==> s == []
    ensures r.Some? ==> r.value in s && forall y :: y in s ==> AtLeast(r.value.version, y.version)
  {
    if s == [] then None else Some(s[LatestIndex(s)])
  }

  /**
   * FirstOrDefault of the descending sort: the key selector dereferences
   * every entry, so a null entry raises NullReferenceException.
   */
  function Latest(items: seq<Option<Artifact>>): (r: Outcome<Option<Artifact>>)
    ensures r.Fail? <==> HasNull(items)
  {
    if HasNull(items) then Fail(NullReferenceException) else Ok(LatestOf(Values(items)))
  }

  /** ArtifactReader.GetLatest over a listing. */
  function GetLatest(items: seq<Option<Artifact>>, prefix: string, country: string): Outcome<Option<Artifact>>
    requires ValidItems(items)
  {
    var all :- GetAll(items, prefix, country);
    Latest(all)
  }

  /**
   * On a listing without nulls, GetLatest finds a matching artifact of
   * maximal version among the matching ones, and nothing only when none
   * matches.
   */
  lemma GetLatestRemote(s: seq<Artifact>, prefix: string, country: string)
    requires AllValid(s)
    ensures GetLatest(Lift(s), prefix, country) == Ok(LatestOf(Matching(s, prefix, country)))
    ensures GetLatest(Lift(s), prefix, country).value.None? <==> forall y :: y in s ==> !Matches(y, prefix, country)
    ensures GetLatest(Lift(s), prefix, country).value.Some? ==>
      var x := GetLatest(Lift(s), prefix, country).value.value;
      x in s && Matches(x, prefix, country)
      && forall y :: y in s && Matches(y, prefix, country) ==> AtLeast(x.version, y.version)
  {
    var m := Matching(s, prefix, country);
    GetAllLift(s, prefix, country);
    assert !HasNull(Lift(m));
    assert Values(Lift(m)) == m;
    if m != [] {
      assert m[0] in s && Matches(m[0], prefix, country);
    }
  }

  // ---------------------------------------------------------------------
  // The reader's source-dependent queries

  /** The listing GetAll reads: the local cache, or the reader's own container. */
  function Source(store: Listings, a: Account, t: ArtifactType, local: bool): Outcome<seq<Option<Artifact>>>
  {
    if local then store.local else Ok(Lift(Remote(store, a, t)))
  }

  /**
   * ArtifactReader.GetLatestLocalFirst: the local cache first; the remote
   * container only when the local query finds nothing.
   */
  function LatestLocalFirst(store: Listings, a: Account, t: ArtifactType, prefix: string, country: string): (r: Outcome<Option<Artifact>>)
    requires ValidListings(store)
  {
    var items :- store.local;
    var local :- GetLatest(items, prefix, country);
    if local.Some? then Ok(local) else GetLatest(Lift(Remote(store, a, t)), prefix, country)
  }

  /** A local hit is returned whatever the remote containers hold. */
  lemma LocalHitIgnoresRemote(store: Listings, other: map<(Account, ArtifactType), seq<Artifact>>,
                              a: Account, t: ArtifactType, prefix: string, country: string)
    requires ValidListings(store) && ValidListings(store.(remote := other))
    requires store.local.Ok?
    requires GetLatest(store.local.value, prefix, country).Ok? && GetLatest(store.local.value, prefix, country).value.Some?
    ensures LatestLocalFirst(store, a, t, prefix, country) == GetLatest(store.local.value, prefix, country)
    ensures LatestLocalFirst(store.(remote := other), a, t, prefix, country) == LatestLocalFirst(store, a, t, prefix, country)
  {
  }

  /** Without a local hit the answer is the remote container's latest. */
  lemma LocalMissUsesRemote(store: Listings, a: Account, t: ArtifactType, prefix: string, country: string)
    requires ValidListings(store)
    requires store.local.Ok? && GetLatest(store.local.value, prefix, country) == Ok(None)
    ensures LatestLocalFirst(store, a, t, prefix, country) == Ok(LatestOf(Matching(Remote(store, a, t), prefix, country)))
  {
    RemoteValid(store, a, t);
    GetLatestRemote(Remote(store, a, t), prefix, country);
  }

  /**
   * Without a local cache folder the lookup raises, whatever the remote
   * containers hold: the remote is never asked.
   */
  lemma MissingCacheThrows(store: Listings, other: map<(Account, ArtifactType), seq<Artifact>>,
                           a: Account, t: ArtifactType, prefix: string, country: string)
    requires ValidListings(store) && ValidListings(store.(remote := other)) && store.local.Fail?
    ensures LatestLocalFirst(store, a, t, prefix, country) == Fail(store.local.error)
    ensures LatestLocalFirst(store.(remote := other), a, t, prefix, country) == Fail(store.local.error)
  {
  }

  /** ArtifactReader.GetCurrentVersion: the latest "base" Sandbox artifact of bcartifacts. */
  function CurrentVersion(store: Listings): (r: Outcome<Version>)
    requires ValidListings(store)
    ensures r.Fail? ==> r.error == NullReferenceException
    ensures r.Ok? ==> WellFormed(r.value)
  {
    RemoteValid(store, BcArtifacts, Sandbox);
    var current := LatestOf(Matching(Remote(store, BcArtifacts, Sandbox), "", "base"));
    if current.None? then Fail(NullReferenceException) else Ok(current.value.version)
  }

  /** LastOrDefault. */
  function Last(s: seq<Artifact>): (r: Option<Artifact>)
    ensures r.None? <==> s == []
    ensures r.Some? ==> r.value == s[|s| - 1]
  {
    if s == [] then None else Some(s[|s| - 1])
  }

  /**
   * The choice between the public-preview and the insider candidate: the
   * preview when there is no insider, or when its version is at least the
   * insider's; the insider otherwise.
   */
  function NextSelect(preview: Option<Artifact>, insider: Option<Artifact>): (r: Option<Artifact>)
    ensures r == preview || r == insider
  {
    if insider.None? then preview
    else if preview.Some? && AtLeast(preview.value.version, insider.value.version) then preview
    else insider
  }

  /**
   * The choice is the candidate of higher version, ties going to the
   * preview, and it is empty only when both candidates are.
   */
  lemma NextSelectHighest(preview: Option<Artifact>, insider: Option<Artifact>)
    ensures NextSelect(preview, insider).None? <==> preview.None? && insider.None?
    ensures NextSelect(preview, insider).Some? && preview.Some? ==> AtLeast(NextSelect(preview, insider).value.version, preview.value.version)
    ensures NextSelect(preview, insider).Some? && insider.Some? ==> AtLeast(NextSelect(preview, insider).value.version, insider.value.version)
    ensures preview.Some? && insider.Some? && preview.value.version == insider.value.version ==> NextSelect(preview, insider) == preview
  {
    if preview.Some? && insider.Some? {
      LessTotal(preview.value.version, insider.value.version);
      LessIrreflexive(preview.value.version);
    }
  }

  /** Which of the two queries asks, and with which prefixes. */
  datatype Query = NextMajorQuery | NextMinorQuery | NextMinorQueryAsWritten

  /** The prefix of the next major version: "{Major + 1}.". */
  function NextMajorPrefix(base: Version): string
    requires WellFormed(base)
  {
    NatToString(base.major + 1) + "."
  }

  /** The prefix of the next minor version: "{Major}.{Minor + 1}". */
  function NextMinorPrefix(base: Version): string
    requires WellFormed(base)
  {
    NatToString(base.major) + "." + NatToString(base.minor + 1)
  }

  /** The public-preview prefix of GetNextMinor as the code builds it: "{Major}.{Major + 1}". */
  function NextMinorPreviewPrefixAsWritten(base: Version): string
    requires WellFormed(base)
  {
    NatToString(base.major) + "." + NatToString(base.major + 1)
  }

  function PreviewPrefix(q: Query, base: Version): string
    requires WellFormed(base)
  {
    match q
    case NextMajorQuery => NextMajorPrefix(base)
    case NextMinorQuery => NextMinorPrefix(base)
    case NextMinorQueryAsWritten => NextMinorPreviewPrefixAsWritten(base)
  }

  function InsiderPrefix(q: Query, base: Version): string
    requires WellFormed(base)
  {
    if q.NextMajorQuery? then NextMajorPrefix(base) else NextMinorPrefix(base)
  }

  /**
   * The shared tail of GetNextMajor and GetNextMinor: only bcinsider
   * readers may ask; the last public-preview and the last insider match of
   * each prefix are weighed by NextSelect.
   */
  function NextFrom(store: Listings, a: Account, t: ArtifactType, country: string, q: Query): (r: Outcome<Option<Artifact>>)
    requires ValidListings(store)
    ensures r.Fail? <==> a != BcInsider || CurrentVersion(store).Fail?
    ensures r.Fail? && a != BcInsider ==> r.error == NotSupportedException
    ensures r.Ok? && r.value.Some? ==>
      var base := CurrentVersion(store).value;
      (r.value.value in Remote(store, BcPublicPreview, t) && Matches(r.value.value, PreviewPrefix(q, base), country))
      || (r.value.value in Remote(store, BcInsider, t) && Matches(r.value.value, InsiderPrefix(q, base), country))
  {
    if a != BcInsider then Fail(NotSupportedException)
    else
      var base :- CurrentVersion(store);
      RemoteValid(store, BcPublicPreview, t);
      RemoteValid(store, BcInsider, t);
      var preview := Last(Matching(Remote(store, BcPublicPreview, t), PreviewPrefix(q, base), country));
      var insider := Last(Matching(Remote(store, a, t), InsiderPrefix(q, base), country));
      Ok(NextSelect(preview, insider))
  }

  /** ArtifactReader.GetNextMajor. */
  function NextMajor(store: Listings, a: Account, t: ArtifactType, country: string): Outcome<Option<Artifact>>
    requires ValidListings(store)
  {
    NextFrom(store, a, t, country, NextMajorQuery)
  }

  /** ArtifactReader.GetNextMinor as written: the preview prefix repeats the major number. */
  function NextMinorAsWritten(store: Listings, a: Account, t: ArtifactType, country: string): Outcome<Option<Artifact>>
    requires ValidListings(store)
  {
    NextFrom(store, a, t, country, NextMinorQueryAsWritten)
  }

  /** ArtifactReader.GetNextMinor as evidently intended: both accounts are asked for "{Major}.{Minor + 1}". */
  function NextMinor(store: Listings, a: Account, t: ArtifactType, country: string): Outcome<Option<Artifact>>
    requires ValidListings(store)
  {
    NextFrom(store, a, t, country, NextMinorQuery)
  }

  /** A next-major answer is a bcinsider or public-preview artifact of version "{Major + 1}.x". */
  lemma NextMajorSelects(store: Listings, t: ArtifactType, country: string)
    requires ValidListings(store) && CurrentVersion(store).Ok?
    ensures NextMajor(store, BcInsider, t, country).Ok?
    ensures NextMajor(store, BcInsider, t, country).value.Some? ==>
      var x := NextMajor(store, BcInsider, t, country).value.value;
      (x in Remote(store, BcPublicPreview, t) || x in Remote(store, BcInsider, t))
      && Matches(x, NextMajorPrefix(CurrentVersion(store).value), country)
  {
  }

  /** With the correction, a next-minor answer has version text "{Major}.{Minor + 1}...". */
  lemma NextMinorSelects(store: Listings, t: ArtifactType, country: string)
    requires ValidListings(store) && CurrentVersion(store).Ok?
    ensures NextMinor(store, BcInsider, t, country).Ok?
    ensures NextMinor(store, BcInsider, t, country).value.Some? ==>
      var x := NextMinor(store, BcInsider, t, country).value.value;
      (x in Remote(store, BcPublicPreview, t) || x in Remote(store, BcInsider, t))
      && Matches(x, NextMinorPrefix(CurrentVersion(store).value), country)
  {
  }

  /** The next-major and next-minor queries are refused for any account but bcinsider. */
  lemma NextQueriesNeedInsider(store: Listings, a: Account, t: ArtifactType, country: string)
    requires ValidListings(store) && a != BcInsider
    ensures NextMajor(store, a, t, country) == Fail(NotSupportedException)
    ensures NextMinor(store, a, t, country) == Fail(NotSupportedException)
    ensures NextMinorAsWritten(store, a, t, country) == Fail(NotSupportedException)
  {
  }

  /** The base artifact of the counterexample store: bcartifacts Sandbox 1.0 "base". */
  function ExampleBase(): Artifact
  {
    Artifact(Some(BcArtifacts), Sandbox, Version(1, 0, -1, -1), "base", None)
  }

  /** The public-preview artifact of the counterexample store: 1.1.0, the next minor. */
  function ExamplePreview(): Artifact
  {
    Artifact(Some(BcPublicPreview), Sandbox, Version(1, 1, 0, -1), "base", None)
  }

  function ExampleStore(): Listings
  {
    Listings(map[(BcArtifacts, Sandbox) := [ExampleBase()], (BcPublicPreview, Sandbox) := [ExamplePreview()]], Ok([]))
  }

  lemma ExampleStoreShape()
    ensures ValidListings(ExampleStore())
    ensures Remote(ExampleStore(), BcArtifacts, Sandbox) == [ExampleBase()]
    ensures Remote(ExampleStore(), BcPublicPreview, Sandbox) == [ExamplePreview()]
    ensures Remote(ExampleStore(), BcInsider, Sandbox) == []
  {
  }

  lemma ExampleCurrentVersion()
    ensures ValidListings(ExampleStore())
    ensures CurrentVersion(ExampleStore()) == Ok(Version(1, 0, -1, -1))
  {
    ExampleStoreShape();
    assert Matches(ExampleBase(), "", "base");
    assert Matching([ExampleBase()], "", "base") == [ExampleBase()];
  }

  lemma ExamplePreviewText()
    ensures VersionText(ExamplePreview().version) == "1.1.0"
  {
    assert NatToString(0) == "0" && NatToString(1) == "1";
    assert RenderAll([1, 1, 0]) == ["1", "1", "0"];
  }

  lemma ExamplePrefixes()
    ensures NextMinorPreviewPrefixAsWritten(Version(1, 0, -1, -1)) == "1.2"
    ensures NextMinorPrefix(Version(1, 0, -1, -1)) == "1.1"
  {
    assert NatToString(1) == "1" && NatToString(2) == "2";
  }

  lemma ExamplePreviewMatches()
    ensures !Matches(ExamplePreview(), "1.2", "")
    ensures Matches(ExamplePreview(), "1.1", "")
  {
    ExamplePreviewText();
    var text := "1.1.0";
    LowerNoUpper(text);
    var wrong := "1.2";
    LowerNoUpper(wrong);
    var right := "1.1";
    LowerNoUpper(right);
    assert text[..3][2] != wrong[2];
    assert text[..3] == right;
  }

  /**
   * A store where GetNextMinor as written finds nothing: the current
   * version is 1.0 and the public preview holds 1.1.0, but the preview is
   * asked for "1.2"; the corrected query finds 1.1.0.
   */
  lemma NextMinorAsWrittenMissesPreview()
    ensures ValidListings(ExampleStore())
    ensures NextMinorAsWritten(ExampleStore(), BcInsider, Sandbox, "") == Ok(None)
    ensures NextMinor(ExampleStore(), BcInsider, Sandbox, "") == Ok(Some(ExamplePreview()))
  {
    ExampleStoreShape();
    ExampleCurrentVersion();
    ExamplePrefixes();
    ExamplePreviewMatches();
    assert Matching([ExamplePreview()], "1.2", "") == [];
    assert Matching([ExamplePreview()], "1.1", "") == [ExamplePreview()];
  }

  // ---------------------------------------------------------------------
  // The reader object

  /** ArtifactReader: a settable account and CDN switch over a fixed artifact type. */
  class Reader {
    var account: Account
    var useCdn: bool
    const kind: ArtifactType

    /** The field initialisation of the constructor; Create adds its check. */
    constructor Init(kind: ArtifactType, account: Account)
      ensures this.kind == kind && this.account == account && !useCdn
    {
      this.kind := kind;
      this.account := account;
      useCdn := false;
    }

    /** new ArtifactReader(type, account): bcinsider serves only Sandbox artifacts. */
    static method Create(kind: ArtifactType, account: Account) returns (r: Outcome<Reader>)
      ensures r.Fail? <==> account == BcInsider && kind != Sandbox
      ensures r.Fail? ==> r.error == NotSupportedException
      ensures r.Ok? ==> fresh(r.value) && r.value.kind == kind && r.value.account == account && !r.value.useCdn
    {
      if account == BcInsider && kind != Sandbox {
        return Fail(NotSupportedException);
      }
      var reader := new Reader.Init(kind, account);
      return Ok(reader);
    }

    method SetAccount(a: Account)
      modifies this
      ensures account == a && useCdn == old(useCdn)
    {
      account := a;
    }

    method SetUseCdn(b: bool)
      modifies this
      ensures useCdn == b && account == old(account)
    {
      useCdn := b;
    }

    /** GetAccountUri(): the blob base URI; the instance overload does not pass UseCdn on. */
    function AccountUri(): (u: Uri)
      reads this
      ensures u == GetAccountUri(account, kind, false)
      ensures HostAccount(u.host) == Some(Some(account))
    {
      HostAccountOfAccountUri(account, false);
      GetAccountUri(account, kind, false)
    }

    /** MakeArtifactUri(version, country) with the reader's account, type and CDN switch. */
    function ArtifactUri(v: Version, country: string): (u: Uri)
      reads this
      requires WellFormed(v)
      ensures u == MakeArtifactUri(account, kind, v, country, useCdn)
      ensures PlainSegment(country) ==> FromUri(u) == Ok(Artifact(Some(account), kind, v, country, Some(u)))
    {
      if PlainSegment(country) then
        FromMakeArtifactUri(account, kind, v, country, useCdn);
        MakeArtifactUri(account, kind, v, country, useCdn)
      else
        MakeArtifactUri(account, kind, v, country, useCdn)
    }

    /** GetAll(versionPrefix, country, local) of this reader. */
    function All(store: Listings, prefix: string, country: string, local: bool): (r: Outcome<seq<Option<Artifact>>>)
      reads this
      requires ValidListings(store)
      ensures !local ==> r == Ok(Lift(Matching(Remote(store, account, kind), prefix, country)))
      ensures local && store.local.Fail? ==> r == Fail(store.local.error)
      ensures local && store.local.Ok? ==> r == GetAll(store.local.value, prefix, country)
    {
      RemoteValid(store, account, kind);
      GetAllLift(Remote(store, account, kind), prefix, country);
      var items :- Source(store, account, kind, local);
      GetAll(items, prefix, country)
    }

    /** GetNextMajor(country): the two candidates are gathered in turn, then weighed. */
    method GetNextMajor(store: Listings, country: string) returns (r: Outcome<Option<Artifact>>)
      requires ValidListings(store)
      ensures r == NextMajor(store, account, kind, country)
    {
      if account != BcInsider {
        return Fail(NotSupportedException);
      }
      var current := CurrentVersion(store);
      if current.Fail? {
        return Fail(current.error);
      }
      var base := current.value;
      RemoteValid(store, BcPublicPreview, kind);
      RemoteValid(store, account, kind);
      var preview := Last(Matching(Remote(store, BcPublicPreview, kind), NextMajorPrefix(base), country));
      var insider := Last(Matching(Remote(store, account, kind), NextMajorPrefix(base), country));
      if insider.None? {
        return Ok(preview);
      }
      if preview.Some? && AtLeast(preview.value.version, insider.value.version) {
        return Ok(preview);
      }
      return Ok(insider);
    }

    /** GetNextMinor(country), with both accounts asked for "{Major}.{Minor + 1}". */
    method GetNextMinor(store: Listings, country: string) returns (r: Outcome<Option<Artifact>>)
      requires ValidListings(store)
      ensures r == NextMinor(store, account, kind, country)
    {
      if account != BcInsider {
        return Fail(NotSupportedException);
      }
      var current := CurrentVersion(store);
      if current.Fail? {
        return Fail(current.error);
      }
      var base := current.value;
      RemoteValid(store, BcPublicPreview, kind);
      RemoteValid(store, account, kind);
      var preview := Last(Matching(Remote(store, BcPublicPreview, kind), NextMinorPrefix(base), country));
      var insider := Last(Matching(Remote(store, account, kind), NextMinorPrefix(base), country));
      if insider.None? {
        return Ok(preview);
      }
      if preview.Some? && AtLeast(preview.value.version, insider.value.version) {
        return Ok(preview);
      }
      return Ok(insider);
    }
  }
}
