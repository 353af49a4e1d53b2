// Two selectors over one signed catalog: Command::release decides what the updater installs and
// ReleaseChecker::latestRelease decides what the application offers, and Command::requirements may
// still refuse what was decided. All are written over a version scheme, a parser and a comparison;
// SEMVER is the scheme the source uses.
module Releases {
  import opened Options
  import opened Decimals
  import opened Strings
  import opened Semver
  import opened Precedence

  /** The package field. In an array, None is a field that is missing or has the wrong type. */
  datatype Package = Absent | Scalar | Array(path: Option<string>, sha256: string, size: Option<int>)

  /** The requirements field; None among the extensions is one that is not a string. */
  datatype Needs = NoArray | Needs(php: Option<string>, extensions: seq<Option<string>>)

  /** A catalog entry that is an array; defaults of absent optional fields are filled in. */
  datatype Release = Release(tag: Option<string>, version: Option<string>, package: Package, withdrawn: bool,
                             minimumUpdater: int, minimumVersion: string, builtAt: Option<string>, needs: Needs)

  datatype Entry = Junk | Listed(release: Release)

  datatype Refusal = Unavailable | NotNewer | NeedsIntermediate | InvalidVersion | InvalidPackage | NeedsPhp | NeedsExtension

  datatype Selection = Chosen(release: Release) | Refused(why: Refusal)

  datatype Offer = Nothing | Latest(release: Release, upgradeable: bool) | Failed

  const SEMVER: Scheme := Scheme(ParseTag, Compare)

  // ---------------------------------------------------------------- Command::requirements

  const MAX_ARCHIVE_BYTES: int := 1073741824

  /** What strtotime, version_compare and extension_loaded answer where the updater runs. */
  datatype Host = Host(isDate: string -> bool, runsPhp: string -> bool, loaded: string -> bool)

  function BeforeLineFeed(s: string): string
  {
    if s != "" && s[|s| - 1] == '\n' then s[..|s| - 1] else s
  }

  /** The pattern ^[a-f0-9]{64}$, whose dollar also matches before a final line feed. */
  predicate Checksum(s: string)
  {
    var hex := BeforeLineFeed(s);
    |hex| == 64 && forall c <- hex :: Digit(c) || 'a' <= c <= 'f'
  }

  function ExpectedPath(tag: string): string
  {
    "versions/" + tag + "/filebeam-" + tag + ".zip"
  }

  predicate ValidPackage(r: Release, host: Host)
  {
    r.builtAt.Some? && host.isDate(r.builtAt.value)
    && r.package.Array? && r.tag.Some? && r.package.path == Some(ExpectedPath(r.tag.value))
    && Checksum(r.package.sha256) && r.package.size.Some? && 1 <= r.package.size.value <= MAX_ARCHIVE_BYTES
  }

  predicate Provides(host: Host, extension: Option<string>)
  {
    extension.Some? && host.loaded(extension.value)
  }

  /** Why requirements() throws, if it does. */
  function Objection(r: Release, host: Host): Option<Refusal>
  {
    if !ValidPackage(r, host) then Some(InvalidPackage)
    else match r.needs
      case NoArray => Some(NeedsPhp)
      case Needs(php, extensions) =>
        if php.Some? && !host.runsPhp(php.value) then Some(NeedsPhp)
        else if exists e <- extensions :: !Provides(host, e) then Some(NeedsExtension)
        else None
  }

  method Requirements(r: Release, host: Host) returns (objection: Option<Refusal>)
    ensures objection == Objection(r, host)
  {
    if !ValidPackage(r, host) {
      return Some(InvalidPackage);
    }
    if r.needs.NoArray? || (r.needs.php.Some? && !host.runsPhp(r.needs.php.value)) {
      return Some(NeedsPhp);
    }
    var extensions := r.needs.extensions;
    for i := 0 to |extensions|
      invariant forall j | 0 <= j < i :: Provides(host, extensions[j])
    {
      if !Provides(host, extensions[i]) {
        return Some(NeedsExtension);
      }
    }
    return None;
  }

  // ---------------------------------------------------------------- the selectors

  datatype Scheme = Scheme(parse: string -> Option<string>, compare: (string, string) -> Option<int>) {

    function Normal(s: Option<string>): Option<string>
    {
      match s case None => None case Some(text) => parse(text)
    }

    /** Tag and version parse, and to the same thing. */
    predicate Consistent(r: Release)
    {
      Normal(r.tag).Some? && Normal(r.version) == Normal(r.tag)
    }

    predicate IsStable(r: Release)
    {
      Normal(r.version).Some? && '-' !in Normal(r.version).value
    }

    /** The filter in Command::release. */
    predicate Candidate(e: Entry, wanted: Option<string>)
    {
      e.Listed? && e.release.package != Absent && Consistent(e.release) && !e.release.withdrawn
      && if wanted.Some? then Normal(e.release.tag) == wanted else IsStable(e.release)
    }

    /** ReleaseChecker::validRelease. */
    predicate Valid(e: Entry)
    {
      e.Listed? && Consistent(e.release) && IsStable(e.release) && !e.release.withdrawn && e.release.package.Array?
    }

    predicate Newer(x: Release, y: Release)
    {
      x.version.Some? && y.version.Some? && compare(x.version.value, y.version.value).Some?
      && compare(x.version.value, y.version.value).value > 0
    }

    /** usort is stable: a later element passes an earlier one only if it is newer. */
    function Insert(sorted: seq<Release>, x: Release): (r: seq<Release>)
      ensures |r| == |sorted| + 1
    {
      if sorted == [] then [x]
      else if Newer(x, sorted[0]) then [x] + sorted
      else [sorted[0]] + Insert(sorted[1..], x)
    }

    function SortNewestFirst(s: seq<Release>): (sorted: seq<Release>)
      ensures |sorted| == |s|
    {
      if s == [] then [] else Insert(SortNewestFirst(s[..|s| - 1]), s[|s| - 1])
    }

    /** The checks both selectors end with, in their order. */
    function Gate(r: Release, current: string): Offer
    {
      if r.version.None? then Failed else
      match compare(r.version.value, current)
      case None => Failed
      case Some(c) =>
        if c <= 0 then Nothing
        else if r.minimumUpdater > 1 then Latest(r, false)
        else match compare(current, r.minimumVersion)
          case None => Failed
          case Some(d) => Latest(r, d >= 0)
    }

    function Verdict(candidates: seq<Release>, current: string): Selection
    {
      if candidates == [] then Refused(Unavailable)
      else match Gate(SortNewestFirst(candidates)[0], current)
        case Nothing => Refused(NotNewer)
        case Latest(r, upgradeable) => if upgradeable then Chosen(r) else Refused(NeedsIntermediate)
        case Failed => Refused(InvalidVersion)
    }

    function OfferOf(candidates: seq<Release>, current: string): Offer
    {
      if candidates == [] then Nothing else Gate(SortNewestFirst(candidates)[0], current)
    }

    function Select(catalog: seq<Entry>, tag: Option<string>, current: string): Selection
    {
      Verdict(Filter(catalog, e => Candidate(e, Normal(tag))), current)
    }

    /** release() and then requirements(): what update() goes on with. */
    function Update(catalog: seq<Entry>, tag: Option<string>, current: string, host: Host): Selection
    {
      match Select(catalog, tag, current)
      case Refused(why) => Refused(why)
      case Chosen(r) => match Objection(r, host) case None => Chosen(r) case Some(why) => Refused(why)
    }

    function LatestOffer(catalog: seq<Entry>, current: string): Offer
    {
      OfferOf(Filter(catalog, e => Valid(e)), current)
    }

    /** Command::release. An unparsable tag leaves `wanted` null, just as no tag does. */
    method SelectRelease(catalog: seq<Entry>, tag: Option<string>, current: string) returns (s: Selection)
      ensures s == Select(catalog, tag, current)
    {
      var wanted := Normal(tag);
      var candidates: seq<Release> := [];
      for i := 0 to |catalog|
        invariant candidates == Filter(catalog[..i], e => Candidate(e, wanted))
      {
        assert catalog[..i + 1][..i] == catalog[..i];
        FilterSnoc(catalog[..i + 1], e => Candidate(e, wanted));
        if Candidate(catalog[i], wanted) {
          candidates := candidates + [catalog[i].release];
        }
      }
      assert catalog[..|catalog|] == catalog;
      if candidates == [] {
        return Refused(Unavailable);
      }
      var release := SortNewestFirst(candidates)[0];
      if release.version.None? {
        return Refused(InvalidVersion);
      }
      var order := compare(release.version.value, current);
      if order.None? {
        return Refused(InvalidVersion);
      }
      if order.value <= 0 {
        return Refused(NotNewer);
      }
      if release.minimumUpdater > 1 {
        return Refused(NeedsIntermediate);
      }
      var distance := compare(current, release.minimumVersion);
      s := if distance.None? then Refused(InvalidVersion)
           else if distance.value < 0 then Refused(NeedsIntermediate) else Chosen(release);
    }

    method PrepareUpdate(catalog: seq<Entry>, tag: Option<string>, current: string, host: Host) returns (s: Selection)
      ensures s == Update(catalog, tag, current, host)
    {
      s := SelectRelease(catalog, tag, current);
      if s.Chosen? {
        var objection := Requirements(s.release, host);
        if objection.Some? {
          s := Refused(objection.value);
        }
      }
    }

    /** ReleaseChecker::latestRelease; Failed stands for an exception. */
    method LatestRelease(catalog: seq<Entry>, current: string) returns (offer: Offer)
      ensures offer == LatestOffer(catalog, current)
    {
      var candidates: seq<Release> := [];
      for i := 0 to |catalog|
        invariant candidates == Filter(catalog[..i], e => Valid(e))
      {
        assert catalog[..i + 1][..i] == catalog[..i];
        FilterSnoc(catalog[..i + 1], e => Valid(e));
        if Valid(catalog[i]) {
          candidates := candidates + [catalog[i].release];
        }
      }
      assert catalog[..|catalog|] == catalog;
      if candidates == [] {
        return Nothing;
      }
      var release := SortNewestFirst(candidates)[0];
      if release.version.None? {
        return Failed;
      }
      var order := compare(release.version.value, current);
      if order.None? {
        return Failed;
      }
      if order.value <= 0 {
        return Nothing;
      }
      var distance := if release.minimumUpdater <= 1 then compare(current, release.minimumVersion) else Some(-1);
      offer := if distance.None? then Failed else Latest(release, distance.value >= 0);
    }

    // -------------------------------------------------------------- any version scheme

    /** Among these releases the comparison is a strict weak order. */
    ghost predicate Ordered(s: seq<Release>)
    {
      (forall x <- s :: !Newer(x, x))
      && (forall x <- s, y <- s | Newer(x, y) :: !Newer(y, x))
      && (forall x <- s, y <- s, z <- s | Newer(x, y) && !Newer(z, y) :: Newer(x, z))
      && (forall x <- s, y <- s, z <- s | !Newer(y, x) && !Newer(z, y) :: !Newer(z, x))
    }

    ghost predicate FirstNewest(s: seq<Release>, k: nat)
    {
      k < |s| && (forall i | 0 <= i < |s| :: !Newer(s[i], s[k])) && (forall i | 0 <= i < k :: Newer(s[k], s[i]))
    }

    /** What sorting puts first is the newest candidate, and among equals the one listed first. */
    lemma {:induction false} SortHead(s: seq<Release>) returns (k: nat)
      requires s != [] && Ordered(s)
      ensures FirstNewest(s, k) && SortNewestFirst(s)[0] == s[k]
    {
      var shorter, x := s[..|s| - 1], s[|s| - 1];
      if shorter == [] {
        k := 0;
      } else {
        OrderedPrefix(s, |s| - 1);
        var j := SortHead(shorter);
        k := if Newer(x, s[j]) then |s| - 1 else j;
        FirstNewestStep(s, j);
      }
    }

    lemma OrderedPrefix(s: seq<Release>, n: nat)
      requires Ordered(s) && n <= |s|
      ensures Ordered(s[..n])
    {
      assert forall x <- s[..n] :: x in s;
    }

    lemma FirstNewestStep(s: seq<Release>, j: nat)
      requires |s| > 1 && Ordered(s) && FirstNewest(s[..|s| - 1], j)
      ensures FirstNewest(s, if Newer(s[|s| - 1], s[j]) then |s| - 1 else j)
    {
      var shorter, x := s[..|s| - 1], s[|s| - 1];
      assert forall i | 0 <= i < |shorter| :: shorter[i] == s[i] && s[i] in s;
      if Newer(x, s[j]) {
        forall i | 0 <= i < |shorter| ensures Newer(x, s[i]) && !Newer(s[i], x) {
          assert !Newer(shorter[i], shorter[j]);
        }
      }
    }

    lemma {:induction false} InsertMembers(sorted: seq<Release>, x: Release)
      ensures forall y <- Insert(sorted, x) :: y == x || y in sorted
    {
      if sorted != [] && !Newer(x, sorted[0]) {
        InsertMembers(sorted[1..], x);
      }
    }

    lemma {:induction false} SortMembers(s: seq<Release>)
      ensures forall y <- SortNewestFirst(s) :: y in s
    {
      if s != [] {
        SortMembers(s[..|s| - 1]);
        InsertMembers(SortNewestFirst(s[..|s| - 1]), s[|s| - 1]);
      }
    }

    /** The entry that the sort brings to the front: none that is kept is newer, and none before it is
        as new. */
    ghost predicate Foremost(catalog: seq<Entry>, keep: Entry -> bool, i: nat)
    {
      i < |catalog| && catalog[i].Listed? && keep(catalog[i])
      && forall j | 0 <= j < |catalog| && catalog[j].Listed? && keep(catalog[j]) ::
           !Newer(catalog[j].release, catalog[i].release) && (j < i ==> Newer(catalog[i].release, catalog[j].release))
    }

    /** And it is what the sort puts first. */
    ghost predicate Heads(catalog: seq<Entry>, keep: Entry -> bool, i: nat)
    {
      Foremost(catalog, keep, i) && Filter(catalog, keep) != [] && SortNewestFirst(Filter(catalog, keep))[0] == catalog[i].release
    }

    ghost predicate OrderedKept(catalog: seq<Entry>, keep: Entry -> bool)
    {
      Ordered(Filter(catalog, keep))
    }

    ghost predicate HeadOrNone(catalog: seq<Entry>, keep: Entry -> bool, head: Option<nat>)
    {
      match head case None => Filter(catalog, keep) == [] case Some(i) => Heads(catalog, keep, i)
    }

    lemma {:induction false} CatalogHead(catalog: seq<Entry>, keep: Entry -> bool) returns (head: Option<nat>)
      requires OrderedKept(catalog, keep)
      ensures HeadOrNone(catalog, keep, head)
    {
      if catalog == [] {
        head := None;
      } else {
        InitIsOrdered(catalog, keep);
        head := CatalogHead(catalog[..|catalog| - 1], keep);
        head := HeadStep(catalog, keep, head);
      }
    }

    lemma HeadStep(catalog: seq<Entry>, keep: Entry -> bool, before: Option<nat>) returns (head: Option<nat>)
      requires catalog != [] && OrderedKept(catalog, keep) && HeadOrNone(catalog[..|catalog| - 1], keep, before)
      ensures HeadOrNone(catalog, keep, head)
    {
      var last := catalog[|catalog| - 1];
      if !(last.Listed? && keep(last)) {
        SameKept(catalog, keep);
        head := before;
        if before.Some? {
          LastIsLeftOut(catalog, keep, before.value);
        }
      } else if before.None? {
        OnlyLastIsKept(catalog, keep);
        head := Some(|catalog| - 1);
      } else {
        var i := LastIsKept(catalog, keep, before.value);
        head := Some(i);
      }
    }

    lemma SameKept(catalog: seq<Entry>, keep: Entry -> bool)
      requires catalog != [] && !(catalog[|catalog| - 1].Listed? && keep(catalog[|catalog| - 1]))
      ensures Filter(catalog, keep) == Filter(catalog[..|catalog| - 1], keep)
    {
      FilterSnoc(catalog, keep);
    }

    lemma InitIsOrdered(catalog: seq<Entry>, keep: Entry -> bool)
      requires catalog != [] && OrderedKept(catalog, keep)
      ensures OrderedKept(catalog[..|catalog| - 1], keep)
    {
      var kept, last := Filter(catalog[..|catalog| - 1], keep), catalog[|catalog| - 1];
      FilterSnoc(catalog, keep);
      if last.Listed? && keep(last) {
        SnocOrdered(kept, last.release);
      } else {
        assert Filter(catalog, keep) == kept;
      }
    }

    lemma LastIsKept(catalog: seq<Entry>, keep: Entry -> bool, k: nat) returns (i: nat)
      requires catalog != [] && catalog[|catalog| - 1].Listed? && keep(catalog[|catalog| - 1])
      requires OrderedKept(catalog, keep) && Heads(catalog[..|catalog| - 1], keep, k)
      ensures Heads(catalog, keep, i)
    {
      var x := catalog[|catalog| - 1].release;
      i := if Newer(x, catalog[k].release) then |catalog| - 1 else k;
      FilterSnoc(catalog, keep);
      SnocHead(Filter(catalog[..|catalog| - 1], keep), x);
      ForemostStep(catalog, keep, k);
    }

    lemma LastIsLeftOut(catalog: seq<Entry>, keep: Entry -> bool, i: nat)
      requires catalog != [] && !(catalog[|catalog| - 1].Listed? && keep(catalog[|catalog| - 1]))
      requires Heads(catalog[..|catalog| - 1], keep, i)
      ensures Heads(catalog, keep, i)
    {
      var init := catalog[..|catalog| - 1];
      SameKept(catalog, keep);
      forall j | 0 <= j < |catalog| && catalog[j].Listed? && keep(catalog[j]) ensures j < |init| && init[j] == catalog[j] {
      }
    }

    lemma OnlyLastIsKept(catalog: seq<Entry>, keep: Entry -> bool)
      requires catalog != [] && Filter(catalog[..|catalog| - 1], keep) == []
      requires catalog[|catalog| - 1].Listed? && keep(catalog[|catalog| - 1]) && OrderedKept(catalog, keep)
      ensures Heads(catalog, keep, |catalog| - 1)
    {
      var init, last := catalog[..|catalog| - 1], catalog[|catalog| - 1].release;
      FilterSnoc(catalog, keep);
      assert Filter(catalog, keep) == [last];
      SortsAlone(last);
      NotNewerThanItself(Filter(catalog, keep), last);
      forall j | 0 <= j < |init| ensures !(init[j].Listed? && keep(init[j])) && init[j] == catalog[j] {
        assert init[j] in init;
      }
    }

    lemma SortsAlone(x: Release)
      ensures SortNewestFirst([x]) == [x]
    {
      assert [x][..0] == [];
    }

    lemma NotNewerThanItself(s: seq<Release>, x: Release)
      requires Ordered(s) && x in s
      ensures !Newer(x, x)
    {
    }

    lemma SnocOrdered(s: seq<Release>, x: Release)
      requires Ordered(s + [x])
      ensures Ordered(s)
    {
      OrderedPrefix(s + [x], |s|);
      assert (s + [x])[..|s|] == s;
    }

    lemma SnocHead(s: seq<Release>, x: Release)
      requires s != []
      ensures SortNewestFirst(s + [x])[0] == if Newer(x, SortNewestFirst(s)[0]) then x else SortNewestFirst(s)[0]
    {
      assert (s + [x])[..|s|] == s;
    }

    lemma ForemostStep(catalog: seq<Entry>, keep: Entry -> bool, k: nat)
      requires |catalog| > 0 && catalog[|catalog| - 1].Listed? && keep(catalog[|catalog| - 1])
      requires Ordered(Filter(catalog, keep)) && Foremost(catalog[..|catalog| - 1], keep, k)
      ensures Foremost(catalog, keep, if Newer(catalog[|catalog| - 1].release, catalog[k].release) then |catalog| - 1 else k)
    {
      var n, x := |catalog| - 1, catalog[|catalog| - 1].release;
      forall j | 0 <= j < n && catalog[j].Listed? && keep(catalog[j])
        ensures catalog[j].release in Filter(catalog, keep)
        ensures !Newer(catalog[j].release, catalog[k].release) && (j < k ==> Newer(catalog[k].release, catalog[j].release))
      {
        assert catalog[j] in catalog && catalog[..n][j] == catalog[j];
      }
      assert catalog[n] in catalog;
    }

    ghost predicate ForemostCandidate(catalog: seq<Entry>, i: nat)
    {
      Foremost(catalog, e => Candidate(e, None), i)
    }

    lemma UpdateHead(catalog: seq<Entry>, current: string, host: Host, r: Release)
      requires Ordered(Candidates(catalog))
      ensures Update(catalog, None, current, host) == Chosen(r) <==>
                Gate(r, current) == Latest(r, true) && Objection(r, host) == None
                && exists i: nat :: ForemostCandidate(catalog, i) && catalog[i].release == r
    {
      SelectorsReduce(catalog, current);
      VerdictOfHead(Candidates(catalog), current, r);
      var keep := e => Candidate(e, None);
      var head := CatalogHead(catalog, keep);
      if head.Some? {
        OneForemost(catalog, head.value);
      } else {
        NoForemost(catalog);
      }
    }

    ghost predicate FirstKept(catalog: seq<Entry>, keep: Entry -> bool, i: nat)
    {
      i < |catalog| && catalog[i].Listed? && keep(catalog[i]) && forall j | 0 <= j < i :: !(catalog[j].Listed? && keep(catalog[j]))
    }

    ghost predicate Ties(s: seq<Release>)
    {
      forall x <- s, y <- s :: !Newer(x, y)
    }

    lemma HeadOfTies(catalog: seq<Entry>, keep: Entry -> bool, k: nat)
      requires Ties(Filter(catalog, keep)) && Foremost(catalog, keep, k)
      ensures forall i: nat :: FirstKept(catalog, keep, i) <==> i == k
    {
      forall j | 0 <= j < |catalog| ensures catalog[j].Listed? && keep(catalog[j]) ==> catalog[j].release in Filter(catalog, keep) {
        assert catalog[j] in catalog;
      }
    }

    lemma NothingIsKept(catalog: seq<Entry>, keep: Entry -> bool)
      requires Filter(catalog, keep) == []
      ensures forall i: nat :: !FirstKept(catalog, keep, i)
    {
      forall i: nat | i < |catalog| ensures !FirstKept(catalog, keep, i) {
        assert catalog[i] in catalog;
      }
    }

    lemma TiesAreOrdered(s: seq<Release>)
      requires Ties(s)
      ensures Ordered(s)
    {
    }

    /** Where no kept entry is newer than another, the first of them is chosen. */
    lemma FirstOfTies(catalog: seq<Entry>, keep: Entry -> bool, current: string, r: Release)
      requires Ties(Filter(catalog, keep))
      ensures Verdict(Filter(catalog, keep), current) == Chosen(r) <==>
                Gate(r, current) == Latest(r, true) && exists i: nat :: FirstKept(catalog, keep, i) && catalog[i].release == r
    {
      TiesAreOrdered(Filter(catalog, keep));
      VerdictOfHead(Filter(catalog, keep), current, r);
      var head := CatalogHead(catalog, keep);
      if head.Some? {
        HeadOfTies(catalog, keep, head.value);
      } else {
        NothingIsKept(catalog, keep);
      }
    }

    lemma CandidateFor(e: Entry, text: string)
      ensures Candidate(e, Some(text)) <==>
                e.Listed? && e.release.package != Absent && !e.release.withdrawn && e.release.tag.Some? && e.release.version.Some?
                && parse(e.release.tag.value) == parse(e.release.version.value) == Some(text)
    {
    }

    lemma UpdateIsVerdict(catalog: seq<Entry>, tag: string, current: string, host: Host, r: Release)
      ensures Update(catalog, Some(tag), current, host) == Chosen(r) <==>
                Verdict(Filter(catalog, e => Candidate(e, parse(tag))), current) == Chosen(r) && Objection(r, host) == None
    {
      assert Normal(Some(tag)) == parse(tag);
    }

    ghost predicate ForemostValid(catalog: seq<Entry>, i: nat)
    {
      Foremost(catalog, e => Valid(e), i)
    }

    lemma OfferHead(catalog: seq<Entry>, current: string, r: Release, upgradeable: bool)
      requires Ordered(Candidates(catalog))
      ensures LatestOffer(catalog, current) == Latest(r, upgradeable) <==>
                Gate(r, current) == Latest(r, upgradeable) && exists i: nat :: ForemostValid(catalog, i) && catalog[i].release == r
    {
      var keep := e => Valid(e);
      SelectorsReduce(catalog, current);
      ArraysAreOrdered(Candidates(catalog));
      ValidReduce(catalog);
      var head := CatalogHead(catalog, keep);
      if head.Some? {
        forall i: nat | ForemostValid(catalog, i) ensures i == head.value {
          ForemostIsOne(catalog, keep, i, head.value);
        }
        GateOffersItsOwn(catalog[head.value].release, current);
      } else {
        forall i: nat | i < |catalog| ensures !ForemostValid(catalog, i) {
          assert catalog[i] in catalog;
        }
      }
    }

    lemma GateYields(r: Release, current: string, upgradeable: bool)
      ensures Gate(r, current) == Latest(r, upgradeable) <==>
                r.version.Some? && compare(r.version.value, current).Some? && compare(r.version.value, current).value > 0
                && if r.minimumUpdater > 1 then !upgradeable
                   else compare(current, r.minimumVersion).Some? && (upgradeable <==> compare(current, r.minimumVersion).value >= 0)
    {
    }

    lemma GateOffersItsOwn(r: Release, current: string)
      ensures Gate(r, current).Latest? ==> Gate(r, current).release == r
    {
    }

    lemma ValidReduce(catalog: seq<Entry>)
      ensures Filter(catalog, e => Valid(e)) == Arrays(Candidates(catalog))
    {
      forall e ensures Valid(e) <==> Candidate(e, None) && e.Listed? && e.release.package.Array? {
        ValidIsArray(e);
      }
      ValidAreArrays(catalog, e => Candidate(e, None), e => Valid(e));
    }

    lemma VerdictOfHead(s: seq<Release>, current: string, r: Release)
      ensures Verdict(s, current) == Chosen(r) <==> s != [] && SortNewestFirst(s)[0] == r && Gate(r, current) == Latest(r, true)
    {
    }

    lemma OneForemost(catalog: seq<Entry>, k: nat)
      requires ForemostCandidate(catalog, k)
      ensures forall i: nat :: ForemostCandidate(catalog, i) <==> i == k
    {
      forall i: nat | ForemostCandidate(catalog, i) ensures i == k {
        ForemostIsOne(catalog, e => Candidate(e, None), i, k);
      }
    }

    lemma NoForemost(catalog: seq<Entry>)
      requires Candidates(catalog) == []
      ensures forall i: nat :: !ForemostCandidate(catalog, i)
    {
      forall i: nat | i < |catalog| ensures !ForemostCandidate(catalog, i) {
        assert catalog[i] in catalog;
      }
    }

    lemma ForemostIsOne(catalog: seq<Entry>, keep: Entry -> bool, i: nat, j: nat)
      requires Foremost(catalog, keep, i) && Foremost(catalog, keep, j)
      ensures i == j
    {
    }

    // -------------------------------------------------------------- the two selectors side by side

    /** What the updater chooses from when no tag is given. */
    function Candidates(catalog: seq<Entry>): seq<Release>
    {
      Filter(catalog, e => Candidate(e, None))
    }

    lemma ValidIsArray(e: Entry)
      ensures Valid(e) <==> Candidate(e, None) && e.Listed? && e.release.package.Array?
    {
    }

    lemma NewestBeats(s: seq<Release>, j: nat, k: nat)
      requires FirstNewest(s, k) && j < |s|
      ensures !Newer(s[j], s[k]) && (j < k ==> Newer(s[k], s[j]))
    {
    }

    lemma FirstNewestIsOne(s: seq<Release>, j: nat, k: nat)
      requires FirstNewest(s, j) && FirstNewest(s, k)
      ensures j == k
    {
      NewestBeats(s, j, k);
      NewestBeats(s, k, j);
    }

    /** The newest of all, if it is an array, is also the newest of the arrays. */
    lemma ArraysHead(s: seq<Release>, k: nat)
      requires FirstNewest(s, k) && s[k].package.Array?
      ensures var j := |Arrays(s[..k])|; FirstNewest(Arrays(s), j) && Arrays(s)[j] == s[k]
    {
      ArraysSplit(s, k);
      forall x <- Arrays(s[..k]) ensures Newer(s[k], x) {
        ArraysMembers(s[..k]);
      }
      forall x <- Arrays(s) ensures !Newer(x, s[k]) {
        ArraysMembers(s);
      }
    }

    lemma ArraysAreOrdered(s: seq<Release>)
      requires Ordered(s)
      ensures Ordered(Arrays(s))
    {
      ArraysMembers(s);
    }

    /** Both sorts have the same head exactly if the newest candidate is an array. */
    lemma HeadsAgree(s: seq<Release>, k: nat)
      requires Ordered(s) && FirstNewest(s, k)
      requires s[k].package.Array?
      ensures Arrays(s) != [] && SortNewestFirst(Arrays(s))[0] == s[k] == SortNewestFirst(s)[0]
    {
      ArraysHead(s, k);
      ArraysAreOrdered(s);
      var i := SortHead(s);
      var j := SortHead(Arrays(s));
      FirstNewestIsOne(s, i, k);
      FirstNewestIsOne(Arrays(s), j, |Arrays(s[..k])|);
    }

    /** What the updater selects is offered exactly if its package is an array. */
    lemma SelectedIsOffered(s: seq<Release>, current: string, r: Release)
      requires Ordered(s) && Verdict(s, current) == Chosen(r)
      ensures OfferOf(Arrays(s), current) == Latest(r, true) <==> r.package.Array?
    {
      var k := SortHead(s);
      if r.package.Array? {
        HeadsAgree(s, k);
      } else if Arrays(s) != [] {
        SortMembers(Arrays(s));
        ArraysMembers(s);
      }
    }

    /** A candidate whose package is no array stands before r in the updater's order: it is newer, or as
        new and listed earlier. */
    ghost predicate Overtaken(s: seq<Release>, r: Release)
    {
      exists i | 0 <= i < |s| :: !s[i].package.Array? && (Newer(s[i], r) || (!Newer(r, s[i]) && r !in s[..i]))
    }

    lemma OfferedIsArray(s: seq<Release>, current: string, r: Release)
      requires OfferOf(Arrays(s), current) == Latest(r, true)
      ensures r in s && r.package.Array?
    {
      SortMembers(Arrays(s));
      ArraysMembers(s);
    }

    /** What is offered as upgradeable is selected exactly if no such candidate overtakes it. */
    lemma OfferedIsSelected(s: seq<Release>, current: string, r: Release)
      requires Ordered(s) && OfferOf(Arrays(s), current) == Latest(r, true)
      ensures Verdict(s, current) == Chosen(r) <==> !Overtaken(s, r)
    {
      OfferedIsArray(s, current, r);
      var k := SortHead(s);
      if s[k].package.Array? {
        HeadsAgree(s, k);
        NotOvertaken(s, k);
        GateOffersItsOwn(s[k], current);
        VerdictOfHead(s, current, r);
      } else {
        NewestOvertakes(s, k, r);
        GateOffersItsOwn(s[k], current);
        VerdictOfHead(s, current, r);
      }
    }

    lemma AgreeExactly(catalog: seq<Entry>, current: string, r: Release)
      requires Ordered(Candidates(catalog))
      ensures Select(catalog, None, current) == Chosen(r) ==>
                (LatestOffer(catalog, current) == Latest(r, true) <==> r.package.Array?)
      ensures LatestOffer(catalog, current) == Latest(r, true) ==>
                (Select(catalog, None, current) == Chosen(r) <==> !Overtaken(Candidates(catalog), r))
    {
      var s := Candidates(catalog);
      SelectorsReduce(catalog, current);
      if Verdict(s, current) == Chosen(r) {
        SelectedIsOffered(s, current, r);
      }
      if OfferOf(Arrays(s), current) == Latest(r, true) {
        OfferedIsSelected(s, current, r);
      }
    }

    lemma SelectorsReduce(catalog: seq<Entry>, current: string)
      ensures Select(catalog, None, current) == Verdict(Candidates(catalog), current)
      ensures LatestOffer(catalog, current) == OfferOf(Arrays(Candidates(catalog)), current)
    {
      forall e ensures Valid(e) <==> Candidate(e, None) && e.Listed? && e.release.package.Array? {
        ValidIsArray(e);
      }
      ValidAreArrays(catalog, e => Candidate(e, None), e => Valid(e));
      assert Normal(None) == None;
    }

    lemma NotOvertaken(s: seq<Release>, k: nat)
      requires FirstNewest(s, k) && s[k].package.Array?
      ensures !Overtaken(s, s[k])
    {
      forall i | 0 <= i < |s| && !s[i].package.Array? ensures !Newer(s[i], s[k]) && (Newer(s[k], s[i]) || s[k] in s[..i]) {
        if i > k {
          assert s[..i][k] == s[k];
        }
      }
    }

    lemma NewestOvertakes(s: seq<Release>, k: nat, r: Release)
      requires FirstNewest(s, k) && !s[k].package.Array? && r in s && r.package.Array?
      ensures Overtaken(s, r)
    {
      if r in s[..k] {
        assert Newer(s[k], r);
      }
    }

    lemma TagIsHonoured(catalog: seq<Entry>, tag: string, current: string, r: Release)
      requires parse(tag).Some? && Select(catalog, Some(tag), current) == Chosen(r)
      ensures Listed(r) in catalog && Normal(r.tag) == parse(tag)
    {
      SortMembers(Filter(catalog, e => Candidate(e, Normal(Some(tag)))));
    }

    lemma HeadIsNewest(s: seq<Release>, current: string, r: Release)
      requires Ordered(s) && Verdict(s, current) == Chosen(r)
      ensures r in s && r.version.Some?
      ensures compare(r.version.value, current).Some? && compare(r.version.value, current).value > 0
      ensures forall x <- s :: !Newer(x, r)
    {
      var k := SortHead(s);
    }

    lemma SelectedIsNewest(catalog: seq<Entry>, current: string, r: Release)
      requires Select(catalog, None, current) == Chosen(r)
      requires Ordered(Candidates(catalog))
      ensures Listed(r) in catalog && Candidate(Listed(r), None) && r.version.Some?
      ensures compare(r.version.value, current).Some? && compare(r.version.value, current).value > 0
      ensures forall e <- catalog | Candidate(e, None) :: !Newer(e.release, r)
    {
      SelectorsReduce(catalog, current);
      HeadIsNewest(Candidates(catalog), current, r);
    }

    lemma UpdateAgrees(catalog: seq<Entry>, current: string, host: Host, r: Release)
      requires Ordered(Candidates(catalog))
      ensures Update(catalog, None, current, host) == Chosen(r) ==> LatestOffer(catalog, current) == Latest(r, true)
      ensures LatestOffer(catalog, current) == Latest(r, true) ==>
                (Update(catalog, None, current, host) == Chosen(r)
                 <==> !Overtaken(Candidates(catalog), r) && Objection(r, host) == None)
    {
      AgreeExactly(catalog, current, r);
    }

    /** The scheme knows the stable versions 1.0.0 and 2.0.0 and that they are newer than 0.0.0. */
    ghost predicate KnowsExamples()
    {
      (forall v | v == "1.0.0" || v == "2.0.0" ::
         parse(v).Some? && '-' !in parse(v).value && compare(v, "0.0.0") == Some(1))
      && compare("0.0.0", "0.0.0") == Some(0) && compare("1.0.0", "2.0.0") == Some(-1)
    }

    lemma ExampleIsSelected(tag: Option<string>)
      requires KnowsExamples() && Normal(tag).None?
      ensures Select([Listed(Example("1.0.0"))], tag, "0.0.0") == Chosen(Example("1.0.0"))
    {
      ExampleQualifies("1.0.0", Example("1.0.0").package);
      OnlyIsSelected(Example("1.0.0"), tag, "0.0.0");
    }

    lemma OnlyIsSelected(r: Release, tag: Option<string>, current: string)
      requires Candidate(Listed(r), Normal(tag)) && Gate(r, current) == Latest(r, true)
      ensures Select([Listed(r)], tag, current) == Chosen(r)
    {
      Only(r, e => Candidate(e, Normal(tag)));
    }

    lemma OnlyParsableTagsAreHonoured(tag: string)
      requires KnowsExamples()
      ensures (forall catalog, current, host, r ::
                 Update(catalog, Some(tag), current, host) == Chosen(r) ==> Normal(r.tag) == parse(tag))
              <==> parse(tag).Some?
    {
      if parse(tag).Some? {
        forall catalog, current, host, r | Update(catalog, Some(tag), current, host) == Chosen(r)
          ensures Normal(r.tag) == parse(tag)
        {
          TagIsHonoured(catalog, tag, current, r);
        }
      } else {
        ExampleIsSelected(Some(tag));
        ExampleIsAccepted("1.0.0");
        assert Update([Listed(Example("1.0.0"))], Some(tag), "0.0.0", LENIENT) == Chosen(Example("1.0.0"));
        assert Normal(Example("1.0.0").tag) != parse(tag);
      }
    }

    /** A release whose package is no array, above one that would be offered. */
    lemma ScalarComesFirst(scalar: Release, usable: Release, current: string)
      requires Candidate(Listed(scalar), None) && scalar.package.Scalar? && Valid(Listed(usable)) && !Newer(usable, scalar)
      requires Gate(scalar, current) == Latest(scalar, true) && Gate(usable, current) == Latest(usable, true)
      ensures Select([Listed(scalar), Listed(usable)], None, current) == Chosen(scalar)
      ensures LatestOffer([Listed(scalar), Listed(usable)], current) == Latest(usable, true)
    {
      Pair(scalar, usable, e => Candidate(e, None));
      Pair(scalar, usable, e => Valid(e));
      assert Normal(None) == None;
    }

    lemma ExampleQualifies(version: string, package: Package)
      requires KnowsExamples() && (version == "1.0.0" || version == "2.0.0") && package != Absent
      ensures var r := Example(version).(package := package);
              Candidate(Listed(r), None) && (package.Array? ==> Valid(Listed(r))) && Gate(r, "0.0.0") == Latest(r, true)
    {
    }

    lemma UnparsableTagIsNoTag(catalog: seq<Entry>, tag: string, current: string)
      requires parse(tag).None?
      ensures Select(catalog, Some(tag), current) == Select(catalog, None, current)
    {
    }

    /** A catalog of two entries, the first newer. */
    lemma Pair(r: Release, next: Release, keep: Entry -> bool)
      requires keep(Listed(next)) && !Newer(next, r)
      ensures Filter([Listed(r), Listed(next)], keep) == if keep(Listed(r)) then [r, next] else [next]
      ensures SortNewestFirst([r, next]) == [r, next] && SortNewestFirst([next]) == [next]
    {
      Only(r, keep);
      Only(next, keep);
      assert [Listed(r), Listed(next)][..1] == [Listed(r)] && [r, next][..1] == [r];
      assert Insert([r], next) == [r] + Insert([], next) by {
        assert [r][1..] == [];
      }
    }

    /** A one-entry catalog, for examples. */
    lemma Only(r: Release, keep: Entry -> bool)
      ensures Filter([Listed(r)], keep) == if keep(Listed(r)) then [r] else []
      ensures SortNewestFirst([r]) == [r]
    {
      assert [Listed(r)][..0] == [] && [r][..0] == [];
    }
  }

  function Filter(catalog: seq<Entry>, keep: Entry -> bool): (r: seq<Release>)
    ensures forall x <- r :: Listed(x) in catalog && keep(Listed(x))
    ensures forall e <- catalog | e.Listed? && keep(e) :: e.release in r
  {
    if catalog == [] then []
    else
      var last := catalog[|catalog| - 1];
      Filter(catalog[..|catalog| - 1], keep) + if last.Listed? && keep(last) then [last.release] else []
  }

  /** The releases whose package is an array, in order. */
  function Arrays(s: seq<Release>): seq<Release>
  {
    if s == [] then []
    else Arrays(s[..|s| - 1]) + if s[|s| - 1].package.Array? then [s[|s| - 1]] else []
  }

  lemma {:induction false} ArraysMembers(s: seq<Release>)
    ensures forall x :: x in Arrays(s) <==> x in s && x.package.Array?
  {
    if s != [] {
      ArraysMembers(s[..|s| - 1]);
      assert s == s[..|s| - 1] + [s[|s| - 1]];
    }
  }

  lemma {:induction false} ArraysConcat(s: seq<Release>, t: seq<Release>)
    ensures Arrays(s + t) == Arrays(s) + Arrays(t)
  {
    if t == [] {
      assert s + t == s;
    } else {
      assert (s + t)[..|s + t| - 1] == s + t[..|t| - 1];
      ArraysConcat(s, t[..|t| - 1]);
    }
  }

  lemma ArraysSnoc(s: seq<Release>, last: Release)
    ensures Arrays(s + [last]) == Arrays(s) + if last.package.Array? then [last] else []
  {
    assert (s + [last])[..|s|] == s;
  }

  lemma ArraysSplit(s: seq<Release>, k: nat)
    requires k < |s| && s[k].package.Array?
    ensures Arrays(s) == Arrays(s[..k]) + [s[k]] + Arrays(s[k + 1..])
  {
    var head, tail := s[..k] + [s[k]], s[k + 1..];
    ArraysSnoc(s[..k], s[k]);
    ArraysConcat(head, tail);
    assert s == head + tail;
  }

  function Kept(e: Entry, keep: Entry -> bool): seq<Release>
  {
    if e.Listed? && keep(e) then [e.release] else []
  }

  lemma FilterSnoc(catalog: seq<Entry>, keep: Entry -> bool)
    requires catalog != []
    ensures Filter(catalog, keep) == Filter(catalog[..|catalog| - 1], keep) + Kept(catalog[|catalog| - 1], keep)
  {
  }

  lemma KeptArrays(e: Entry, kept: seq<Release>, candidate: Entry -> bool, valid: Entry -> bool)
    requires valid(e) <==> candidate(e) && e.Listed? && e.release.package.Array?
    ensures Arrays(kept + Kept(e, candidate)) == Arrays(kept) + Kept(e, valid)
  {
    if e.Listed? && candidate(e) {
      ArraysSnoc(kept, e.release);
    } else {
      assert kept + [] == kept;
    }
  }

  lemma {:induction false} ValidAreArrays(catalog: seq<Entry>, candidate: Entry -> bool, valid: Entry -> bool)
    requires forall e :: valid(e) <==> candidate(e) && e.Listed? && e.release.package.Array?
    ensures Filter(catalog, valid) == Arrays(Filter(catalog, candidate))
  {
    if catalog != [] {
      var init, last := catalog[..|catalog| - 1], catalog[|catalog| - 1];
      ValidAreArrays(init, candidate, valid);
      FilterSnoc(catalog, candidate);
      FilterSnoc(catalog, valid);
      KeptArrays(last, Filter(init, candidate), candidate, valid);
    }
  }

  // ---------------------------------------------------------------- semantic versions

  ghost predicate HasStableVersion(r: Release)
  {
    r.version.Some? && WellFormed(r.version.value) && ReadingOf(r.version.value).pre == []
  }

  lemma StableHasNoPre(r: Release)
    requires SEMVER.IsStable(r)
    ensures HasStableVersion(r)
  {
    ParsedIsWellFormed(r.version.value);
    StableReading(r.version.value);
  }

  lemma StableReading(value: string)
    requires WellFormed(value)
    ensures ParseTag(value).Some? && ('-' !in ParseTag(value).value ==> ReadingOf(value).pre == [])
  {
    ReadsParses(value, ReadingOf(value));
    TextParts(ReadingOf(value));
  }

  ghost predicate After(x: Release, y: Release)
    requires HasStableVersion(x) && HasStableVersion(y)
  {
    CompareVersion(Key(x.version.value), Key(y.version.value)) > 0
  }

  lemma NewerIsAfter(x: Release, y: Release)
    requires HasStableVersion(x) && HasStableVersion(y)
    ensures SEMVER.Newer(x, y) <==> After(x, y)
  {
    KeysCompare(x.version.value, y.version.value);
  }

  lemma AfterOrder(x: Release, y: Release, z: Release)
    requires HasStableVersion(x) && HasStableVersion(y) && HasStableVersion(z)
    ensures !After(x, x) && (After(x, y) ==> !After(y, x))
    ensures After(x, y) && !After(z, y) ==> After(x, z)
    ensures !After(y, x) && !After(z, y) ==> !After(z, x)
  {
    KeyOrder(Key(x.version.value), Key(y.version.value), Key(z.version.value));
  }

  lemma KeyOrder(u: Version, v: Version, w: Version)
    ensures CompareVersion(u, u) == 0 && CompareVersion(v, u) == -CompareVersion(u, v)
    ensures CompareVersion(u, v) > 0 && CompareVersion(w, v) <= 0 ==> CompareVersion(u, w) > 0
    ensures CompareVersion(v, u) <= 0 && CompareVersion(w, v) <= 0 ==> CompareVersion(w, u) <= 0
  {
    PrecedenceIsTotalOrder(u, u, u);
    PrecedenceIsTotalOrder(u, v, u);
    PrecedenceIsTotalOrder(u, w, u);
    PrecedenceIsTotalOrder(w, v, u);
  }

  lemma StableIsOrdered(s: seq<Release>)
    requires forall x <- s :: HasStableVersion(x)
    ensures SEMVER.Ordered(s)
  {
    forall x <- s, y <- s ensures SEMVER.Newer(x, y) <==> After(x, y) {
      NewerIsAfter(x, y);
    }
    forall x <- s, y <- s, z <- s
      ensures !After(x, x) && (After(x, y) ==> !After(y, x))
      ensures After(x, y) && !After(z, y) ==> After(x, z)
      ensures !After(y, x) && !After(z, y) ==> !After(z, x)
    {
      AfterOrder(x, y, z);
    }
  }

  lemma CandidatesAreOrdered(catalog: seq<Entry>)
    ensures SEMVER.Ordered(SEMVER.Candidates(catalog))
  {
    var candidates := SEMVER.Candidates(catalog);
    forall x <- candidates ensures HasStableVersion(x) {
      StableHasNoPre(x);
    }
    StableIsOrdered(candidates);
  }

  /** What the updater installs when no tag is given: a listed, consistent, stable release that is not
      withdrawn, newer than the installed version, and with no newer such release beside it. */
  lemma SelectedIsNewestStable(catalog: seq<Entry>, current: string, r: Release)
    requires SEMVER.Select(catalog, None, current) == Chosen(r)
    ensures Listed(r) in catalog && SEMVER.Candidate(Listed(r), None)
    ensures Compare(r.version.value, current).Some? && Compare(r.version.value, current).value > 0
    ensures forall e <- catalog | SEMVER.Candidate(e, None) :: !SEMVER.Newer(e.release, r)
  {
    CandidatesAreOrdered(catalog);
    SEMVER.SelectedIsNewest(catalog, current, r);
  }

  // ---------------------------------------------------------------- what can be installed

  /** An entry that an update without a tag considers: tag and version spell one stable version, and the
      release has a package and is not withdrawn. */
  ghost predicate Eligible(e: Entry)
  {
    e.Listed? && !e.release.withdrawn && e.release.package != Absent && e.release.tag.Some? && e.release.version.Some?
    && exists t, v :: Reads(e.release.tag.value, t) && Reads(e.release.version.value, v) && Text(t) == Text(v) && v.pre == []
  }

  lemma EligibleExactly(e: Entry)
    ensures SEMVER.Candidate(e, None) <==> Eligible(e)
  {
    if e.Listed? && e.release.tag.Some? && e.release.version.Some? {
      SameStableVersion(e.release.tag.value, e.release.version.value);
    }
  }

  /** Two strings that parse to the same stable version. */
  lemma SameStableVersion(tag: string, version: string)
    ensures (ParseTag(tag).Some? && ParseTag(version) == ParseTag(tag) && '-' !in ParseTag(version).value)
            <==> exists t, v :: Reads(tag, t) && Reads(version, v) && Text(t) == Text(v) && v.pre == []
  {
    if ParseTag(tag).Some? && ParseTag(version) == ParseTag(tag) && '-' !in ParseTag(version).value {
      ReadsSameVersion(tag, version);
    }
    forall t, v | Reads(tag, t) && Reads(version, v) && Text(t) == Text(v) && v.pre == []
      ensures ParseTag(tag) == ParseTag(version) == Some(Text(v)) && '-' !in Text(v)
    {
      ReadsParses(tag, t);
      ReadsParses(version, v);
      ReadingParts(v);
    }
  }

  lemma ReadsSameVersion(tag: string, version: string)
    requires ParseTag(tag).Some? && ParseTag(version) == ParseTag(tag) && '-' !in ParseTag(version).value
    ensures exists t, v :: Reads(tag, t) && Reads(version, v) && Text(t) == Text(v) && v.pre == []
  {
    ParseTagMeetsPattern(tag, ParseTag(tag).value);
    ParseTagMeetsPattern(version, ParseTag(version).value);
    var t :| Reads(tag, t) && Text(t) == ParseTag(tag).value;
    var v :| Reads(version, v) && Text(v) == ParseTag(version).value;
    TextParts(v);
  }

  /** No eligible entry is newer, and none listed earlier is as new. */
  ghost predicate First(catalog: seq<Entry>, i: nat)
  {
    i < |catalog| && Eligible(catalog[i])
    && forall j | 0 <= j < |catalog| && Eligible(catalog[j]) ::
         var a, b := catalog[j].release.version.value, catalog[i].release.version.value;
         !NewerVersion(a, b) && (j < i ==> NewerVersion(b, a))
  }

  /** What the installed version, the updater and the host must meet. */
  ghost predicate Installable(r: Release, current: string, host: Host)
  {
    r.version.Some? && r.tag.Some? && NewerVersion(r.version.value, current) && r.minimumUpdater <= 1
    && Compare(current, r.minimumVersion).Some? && Compare(current, r.minimumVersion).value >= 0
    && r.builtAt.Some? && host.isDate(r.builtAt.value)
    && r.package.Array? && r.package.path == Some("versions/" + r.tag.value + "/filebeam-" + r.tag.value + ".zip")
    && r.package.size.Some? && 1 <= r.package.size.value <= 1073741824
    && SpellsChecksum(r.package.sha256)
    && r.needs.Needs? && (r.needs.php.Some? ==> host.runsPhp(r.needs.php.value))
    && forall e <- r.needs.extensions :: e.Some? && host.loaded(e.value)
  }

  /** Sixty-four hexadecimal digits, and maybe a line feed. */
  ghost predicate SpellsChecksum(s: string)
  {
    exists hex, end :: s == hex + end && |hex| == 64 && (forall c <- hex :: '0' <= c <= '9' || 'a' <= c <= 'f') && (end == "" || end == "\n")
  }

  lemma ChecksumExactly(s: string)
    ensures Checksum(s) <==> SpellsChecksum(s)
  {
    if Checksum(s) {
      var hex := BeforeLineFeed(s);
      var end := if hex == s then "" else "\n";
      assert s == hex + end;
      forall c <- hex ensures '0' <= c <= '9' || 'a' <= c <= 'f' {
        assert Digit(c) || 'a' <= c <= 'f';
      }
    }
    if SpellsChecksum(s) {
      var hex, end :| s == hex + end && |hex| == 64 && (forall c <- hex :: '0' <= c <= '9' || 'a' <= c <= 'f') && (end == "" || end == "\n");
      assert hex[63] in hex && s[..64] == hex && s[63] == hex[63];
      assert BeforeLineFeed(s) == hex;
    }
  }

  lemma ObjectionExactly(r: Release, host: Host)
    ensures Objection(r, host) == None <==>
              ValidPackage(r, host) && r.needs.Needs? && (r.needs.php.Some? ==> host.runsPhp(r.needs.php.value))
              && forall e <- r.needs.extensions :: e.Some? && host.loaded(e.value)
  {
    if r.needs.Needs? {
      assert forall e :: Provides(host, e) <==> e.Some? && host.loaded(e.value);
    }
  }

  lemma InstallableExactly(r: Release, current: string, host: Host)
    ensures Installable(r, current, host) <==> SEMVER.Gate(r, current) == Latest(r, true) && Objection(r, host) == None
  {
    GateOffersExactly(r, current, true);
    ObjectionExactly(r, host);
    if r.package.Array? {
      ChecksumExactly(r.package.sha256);
    }
  }

  /** Which release an update without a tag goes on with, over every catalog and host, both ways: the
      first of the newest eligible entries, if that is installable, and no other. */
  lemma UpdateExactly(catalog: seq<Entry>, current: string, host: Host, r: Release)
    ensures SEMVER.Update(catalog, None, current, host) == Chosen(r) <==>
              Installable(r, current, host) && exists i: nat :: First(catalog, i) && catalog[i].release == r
  {
    CandidatesAreOrdered(catalog);
    SEMVER.UpdateHead(catalog, current, host, r);
    InstallableExactly(r, current, host);
    forall i: nat ensures First(catalog, i) <==> SEMVER.ForemostCandidate(catalog, i) {
      FirstIsForemost(catalog, i);
    }
  }

  lemma FirstIsForemost(catalog: seq<Entry>, i: nat)
    ensures First(catalog, i) <==> SEMVER.ForemostCandidate(catalog, i)
  {
    forall e ensures SEMVER.Candidate(e, None) <==> Eligible(e) {
      EligibleExactly(e);
    }
  }

  /** An entry that a tag asks for: tag and version spell the same version as it does, pre-release or not. */
  ghost predicate Answers(e: Entry, wanted: Reading)
  {
    e.Listed? && !e.release.withdrawn && e.release.package != Absent && e.release.tag.Some? && e.release.version.Some?
    && exists t, v :: Reads(e.release.tag.value, t) && Reads(e.release.version.value, v) && Text(t) == Text(v) == Text(wanted)
  }

  lemma AnswersExactly(e: Entry, tag: string, wanted: Reading)
    requires Reads(tag, wanted)
    ensures SEMVER.Candidate(e, ParseTag(tag)) <==> Answers(e, wanted)
  {
    ReadsParses(tag, wanted);
    SEMVER.CandidateFor(e, Text(wanted));
    if e.Listed? && e.release.tag.Some? && e.release.version.Some? {
      BothSpell(e.release.tag.value, e.release.version.value, Text(wanted));
    }
  }

  lemma BothSpell(tag: string, version: string, text: string)
    ensures ParseTag(tag) == ParseTag(version) == Some(text)
            <==> exists t, v :: Reads(tag, t) && Reads(version, v) && Text(t) == Text(v) == text
  {
    ParseTagMeetsPattern(tag, text);
    ParseTagMeetsPattern(version, text);
  }

  /** Entries for one tag compare as equal. */
  lemma AnswersTie(e: Entry, f: Entry, wanted: Reading)
    requires Answers(e, wanted) && Answers(f, wanted)
    ensures !NewerVersion(e.release.version.value, f.release.version.value)
  {
    var a, b := e.release.version.value, f.release.version.value;
    var v :| Reads(a, v) && Text(v) == Text(wanted);
    var w :| Reads(b, w) && Text(w) == Text(wanted);
    SameTextTies(a, b, v, w);
  }

  lemma SameTextTies(a: string, b: string, v: Reading, w: Reading)
    requires Reads(a, v) && Reads(b, w) && Text(v) == Text(w)
    ensures Compare(a, b) == Some(0)
  {
    TextParts(v);
    TextParts(w);
    SameIsInOrder(v.pre);
    CompareMeetsPrecedence(a, b, v, w);
    PrecedenceIsTotalOrder(CutVersion(Denotation(v)), CutVersion(Denotation(v)), CutVersion(Denotation(v)));
  }

  /** The first entry for a tag. */
  ghost predicate FirstAnswer(catalog: seq<Entry>, i: nat, wanted: Reading)
  {
    i < |catalog| && Answers(catalog[i], wanted) && forall j | 0 <= j < i :: !Answers(catalog[j], wanted)
  }

  lemma AnswersAreKept(catalog: seq<Entry>, tag: string, wanted: Reading, keep: Entry -> bool)
    requires Reads(tag, wanted) && forall e :: keep(e) <==> SEMVER.Candidate(e, ParseTag(tag))
    ensures forall i: nat :: FirstAnswer(catalog, i, wanted) <==> SEMVER.FirstKept(catalog, keep, i)
    ensures SEMVER.Ties(Filter(catalog, keep))
  {
    forall e ensures keep(e) <==> Answers(e, wanted) {
      AnswersExactly(e, tag, wanted);
    }
    forall x <- Filter(catalog, keep), y <- Filter(catalog, keep) ensures !SEMVER.Newer(x, y) {
      AnswersTie(Listed(x), Listed(y), wanted);
    }
  }

  /** Which release an update to a tag goes on with, both ways: the first entry for that tag, if it is
      installable. */
  lemma TaggedUpdateExactly(catalog: seq<Entry>, tag: string, wanted: Reading, current: string, host: Host, r: Release)
    requires Reads(tag, wanted)
    ensures SEMVER.Update(catalog, Some(tag), current, host) == Chosen(r) <==>
              Installable(r, current, host) && exists i: nat :: FirstAnswer(catalog, i, wanted) && catalog[i].release == r
  {
    var keep := e => SEMVER.Candidate(e, ParseTag(tag));
    AnswersAreKept(catalog, tag, wanted, keep);
    InstallableExactly(r, current, host);
    SEMVER.UpdateIsVerdict(catalog, tag, current, host, r);
    SEMVER.FirstOfTies(catalog, keep, current, r);
  }

  ghost predicate FirstArray(catalog: seq<Entry>, i: nat)
  {
    i < |catalog| && Eligible(catalog[i]) && catalog[i].release.package.Array?
    && forall j | 0 <= j < |catalog| && Eligible(catalog[j]) && catalog[j].release.package.Array? ::
         var a, b := catalog[j].release.version.value, catalog[i].release.version.value;
         !NewerVersion(a, b) && (j < i ==> NewerVersion(b, a))
  }

  ghost predicate Offerable(r: Release, current: string, upgradeable: bool)
  {
    r.version.Some? && NewerVersion(r.version.value, current)
    && if r.minimumUpdater > 1 then !upgradeable
       else Compare(current, r.minimumVersion).Some? && (upgradeable <==> Compare(current, r.minimumVersion).value >= 0)
  }

  /** And which release is offered, and whether as one that can be updated to: the first of the newest
      eligible entries with an array, if it is newer than what is installed. */
  lemma OfferExactly(catalog: seq<Entry>, current: string, r: Release, upgradeable: bool)
    ensures SEMVER.LatestOffer(catalog, current) == Latest(r, upgradeable) <==>
              Offerable(r, current, upgradeable) && exists i: nat :: FirstArray(catalog, i) && catalog[i].release == r
  {
    CandidatesAreOrdered(catalog);
    SEMVER.OfferHead(catalog, current, r, upgradeable);
    GateOffersExactly(r, current, upgradeable);
    forall i: nat ensures FirstArray(catalog, i) <==> SEMVER.ForemostValid(catalog, i) {
      FirstArrayIsForemost(catalog, i);
    }
  }

  lemma GateOffersExactly(r: Release, current: string, upgradeable: bool)
    ensures SEMVER.Gate(r, current) == Latest(r, upgradeable) <==> Offerable(r, current, upgradeable)
  {
    SEMVER.GateYields(r, current, upgradeable);
  }

  lemma FirstArrayIsForemost(catalog: seq<Entry>, i: nat)
    ensures FirstArray(catalog, i) <==> SEMVER.ForemostValid(catalog, i)
  {
    forall e ensures SEMVER.Valid(e) <==> Eligible(e) && e.release.package.Array? {
      EligibleExactly(e);
      SEMVER.ValidIsArray(e);
    }
  }

  /** A release with a valid package, for examples. */
  function Example(version: string): Release
  {
    Release(Some(version), Some(version), Array(Some(ExpectedPath(version)), seq(64, _ => '0'), Some(1)), false, 1, "0.0.0",
            Some("now"), Needs(None, []))
  }

  const LENIENT: Host := Host(_ => true, _ => true, _ => true)

  lemma ExampleIsAccepted(version: string)
    ensures Objection(Example(version), LENIENT) == None
  {
  }

  lemma NumbersOnly(digit: string)
    requires digit == "0" || digit == "1" || digit == "2"
    ensures var r := Reading(digit, "0", "0", [], []);
            Admissible(r) && Reads(digit + ".0.0", r) && CutVersion(Denotation(r)) == Version(Value(digit), 0, 0, [])
            && Value(digit) == if digit == "0" then 0 else if digit == "1" then 1 else 2
  {
    var r := Reading(digit, "0", "0", [], []);
    DottedNumbers(digit, "0", "0");
    assert Text(r) == digit + ".0.0";
    StripCanonical(r);
    assert digit[..0] == "" && "0"[..0] == "";
    assert Value(digit) == digit[0] as int - '0' as int && Value("0") == 0;
  }

  lemma DottedNumbers(a: string, b: string, c: string)
    ensures Implode([a, b, c], '.') == a + ['.'] + (b + ['.'] + c)
  {
    assert [a, b, c][1..] == [b, c] && [b, c][1..] == [c];
    assert Implode([b, c], '.') == b + ['.'] + Implode([c], '.');
  }

  lemma StableNumbersCompare(a: string, b: string)
    requires a in {"0", "1", "2"} && b in {"0", "1", "2"}
    ensures AllDigits(a) && AllDigits(b) && Compare(a + ".0.0", b + ".0.0") == Some(Spaceship(Value(a), Value(b)))
    ensures ParseTag(a + ".0.0").Some? && '-' !in ParseTag(a + ".0.0").value
  {
    var r, s := Reading(a, "0", "0", [], []), Reading(b, "0", "0", [], []);
    NumbersOnly(a);
    NumbersOnly(b);
    ReadsParses(a + ".0.0", r);
    ReadingParts(r);
    CompareMeetsPrecedence(a + ".0.0", b + ".0.0", r, s);
  }

  lemma SemverKnowsExamples()
    ensures SEMVER.KnowsExamples()
  {
    assert "0" + ".0.0" == "0.0.0" && "1" + ".0.0" == "1.0.0" && "2" + ".0.0" == "2.0.0";
    NumbersOnly("0");
    NumbersOnly("1");
    NumbersOnly("2");
    StableNumbersCompare("1", "0");
    StableNumbersCompare("2", "0");
    StableNumbersCompare("0", "0");
    StableNumbersCompare("1", "2");
  }

  /** The selectors, over every catalog. A release that release() selects is offered exactly if its
      package is an array, and one that is offered is selected exactly if no candidate without an array
      is newer, or as new and listed earlier. */
  lemma SelectorsAgreeExactly(catalog: seq<Entry>, current: string, r: Release)
    ensures SEMVER.Select(catalog, None, current) == Chosen(r) ==>
              (SEMVER.LatestOffer(catalog, current) == Latest(r, true) <==> r.package.Array?)
    ensures SEMVER.LatestOffer(catalog, current) == Latest(r, true) ==>
              (SEMVER.Select(catalog, None, current) == Chosen(r) <==> !SEMVER.Overtaken(SEMVER.Candidates(catalog), r))
  {
    CandidatesAreOrdered(catalog);
    SEMVER.AgreeExactly(catalog, current, r);
  }

  /** Offer and update, over every catalog and host. What an update without a tag goes on with is what
      is offered; and an offered release is what the update goes on with exactly if no such candidate
      comes before it and requirements() accepts it. */
  lemma UpdatesAgreeExactly(catalog: seq<Entry>, current: string, host: Host, r: Release)
    ensures SEMVER.Update(catalog, None, current, host) == Chosen(r) ==> SEMVER.LatestOffer(catalog, current) == Latest(r, true)
    ensures SEMVER.LatestOffer(catalog, current) == Latest(r, true) ==>
              (SEMVER.Update(catalog, None, current, host) == Chosen(r)
               <==> !SEMVER.Overtaken(SEMVER.Candidates(catalog), r) && Objection(r, host) == None)
  {
    CandidatesAreOrdered(catalog);
    SEMVER.UpdateAgrees(catalog, current, host, r);
  }

  /** A release that is offered and that the host would accept, but that cannot be installed: a newer
      entry whose package is no array is selected in its place and then refused, on every host. */
  lemma ScalarHidesOffer(host: Host)
    ensures var catalog := [Listed(Example("2.0.0").(package := Scalar)), Listed(Example("1.0.0"))];
            SEMVER.LatestOffer(catalog, "0.0.0") == Latest(Example("1.0.0"), true)
            && SEMVER.Update(catalog, None, "0.0.0", host) == Refused(InvalidPackage)
            && SEMVER.Update(catalog[1..], None, "0.0.0", LENIENT) == Chosen(Example("1.0.0"))
  {
    SemverKnowsExamples();
    SEMVER.ExampleQualifies("2.0.0", Scalar);
    SEMVER.ExampleQualifies("1.0.0", Example("1.0.0").package);
    SEMVER.ScalarComesFirst(Example("2.0.0").(package := Scalar), Example("1.0.0"), "0.0.0");
    SEMVER.ExampleIsSelected(None);
    ExampleIsAccepted("1.0.0");
    assert [Listed(Example("2.0.0").(package := Scalar)), Listed(Example("1.0.0"))][1..] == [Listed(Example("1.0.0"))];
  }

  /** The promise that a tag installs that release holds, over all catalogs and hosts, exactly for tags
      that parse; any other tag is silently treated as a request for the latest stable release. */
  lemma TagIsHonouredExactly(tag: string)
    ensures (forall catalog, current, host, r ::
               SEMVER.Update(catalog, Some(tag), current, host) == Chosen(r) ==> SEMVER.Normal(r.tag) == ParseTag(tag))
            <==> ParseTag(tag).Some?
    ensures ParseTag(tag).None? ==>
              forall catalog, current :: SEMVER.Select(catalog, Some(tag), current) == SEMVER.Select(catalog, None, current)
  {
    SemverKnowsExamples();
    SEMVER.OnlyParsableTagsAreHonoured(tag);
    forall catalog, current | ParseTag(tag).None?
      ensures SEMVER.Select(catalog, Some(tag), current) == SEMVER.Select(catalog, None, current)
    {
      SEMVER.UnparsableTagIsNoTag(catalog, tag, current);
    }
  }
}
