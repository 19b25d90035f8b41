/** The release filter and ranking of the download handler: which indexer results
    are usable ebooks, in what order they are tried, which one is picked and which
    link is handed to the torrent client. */
module Releases {
  import opened Options
  import opened Text

  /** One result record returned by the indexer aggregator (Prowlarr). */
  datatype Release = Release(
    title: Option<string>,
    guid: Option<string>,
    seeders: Option<int>,
    downloadUrl: Option<string>,
    magnetUrl: Option<string>)

  const AudioMarkers: seq<string> := ["audiobook", "audio book", ".m4b", ".mp3"]
  const EbookMarkers: seq<string> := ["epub", "mobi", "pdf", "azw", "azw3"]

  /** The filter callback: a title and a guid, no audiobook marker in the
      lower-cased title, and at least one ebook format marker in it. */
  predicate IsEbookRelease(r: Release)
    ensures IsEbookRelease(r) ==> Truthy(r.title) && Truthy(r.guid)
  {
    && Truthy(r.title)
    && Truthy(r.guid)
    && var t := Lower(r.title.value);
    && !(Includes(t, "audiobook") || Includes(t, "audio book") || Includes(t, ".m4b") || Includes(t, ".mp3"))
    && (Includes(t, "epub") || Includes(t, "mobi") || Includes(t, "pdf") || Includes(t, "azw") || Includes(t, "azw3"))
  }

  /** What the filter keeps, stated over the marker lists and substring occurrence;
      the "azw3" test never keeps a release that the "azw" test would not. */
  lemma {:induction false} EbookReleaseMeaning(r: Release)
    ensures IsEbookRelease(r) <==>
      && Truthy(r.title) && Truthy(r.guid)
      && (forall m :: m in AudioMarkers ==> !Occurs(Lower(r.title.value), m))
      && (exists m :: m in EbookMarkers[..4] && Occurs(Lower(r.title.value), m))
  {
    if r.title.Some? {
      var t := Lower(r.title.value);
      if Occurs(t, "azw3") {
        OccursPrefix(t, "azw3", "azw");
      }
      assert EbookMarkers[..4] == ["epub", "mobi", "pdf", "azw"];
    }
  }

  /** `Array.prototype.filter`, keeping the elements `keep` accepts, in order. */
  function Filter<T>(s: seq<T>, keep: T -> bool): (r: seq<T>)
    ensures |r| <= |s|
    ensures forall i :: 0 <= i < |r| ==> keep(r[i])
  {
    if s == [] then []
    else (if keep(s[0]) then [s[0]] else []) + Filter(s[1..], keep)
  }

  /** The filter keeps every accepted element as often as the input holds it and
      drops every other one. */
  lemma {:induction false} FilterCount<T>(s: seq<T>, keep: T -> bool, x: T)
    ensures multiset(Filter(s, keep))[x] == if keep(x) then multiset(s)[x] else 0
  {
    if s != [] {
      FilterCount(s[1..], keep, x);
      assert s == [s[0]] + s[1..];
    }
  }

  lemma FilterCons<T>(x: T, s: seq<T>, keep: T -> bool)
    ensures Filter([x] + s, keep) == (if keep(x) then [x] else []) + Filter(s, keep)
  {
    assert ([x] + s)[1..] == s;
  }

  /** The results that survive the filter, in input order. */
  function EbookReleases(rs: seq<Release>): (r: seq<Release>)
    ensures |r| <= |rs|
    ensures forall i :: 0 <= i < |r| ==> IsEbookRelease(r[i])
  {
    Filter(rs, IsEbookRelease)
  }

  /** `/epub/i.test(title)` in the comparator. */
  predicate IsEpub(r: Release) {
    r.title.Some? && Includes(Lower(r.title.value), "epub")
  }

  /** The comparator's test is the case-insensitive match of the regular
      expression `/epub/i` against the title. */
  lemma IsEpubMatchesRegex(r: Release)
    ensures IsEpub(r) <==> r.title.Some? && MatchesIgnoringCase(r.title.value, "epub")
  {
    assert Lower("epub") == "epub" by {
      assert forall i :: 0 <= i < 4 ==> LowerChar("epub"[i]) == "epub"[i];
    }
    if r.title.Some? {
      IncludesLowerIsCaseInsensitive(r.title.value, "epub");
    }
  }

  /** `seeders || 0`. */
  function SeedCount(r: Release): int {
    if r.seeders.Some? then r.seeders.value else 0
  }

  /** The sort comparator: negative when `a` is to go before `b`, positive when
      after, zero when the two are tied. */
  function Compare(a: Release, b: Release): (c: int)
    ensures c < 0 <==> (IsEpub(a) && !IsEpub(b)) || (IsEpub(a) == IsEpub(b) && SeedCount(a) > SeedCount(b))
    ensures c > 0 <==> (!IsEpub(a) && IsEpub(b)) || (IsEpub(a) == IsEpub(b) && SeedCount(a) < SeedCount(b))
  {
    var aIsEpub := IsEpub(a);
    var bIsEpub := IsEpub(b);
    if aIsEpub && !bIsEpub then -1
    else if !aIsEpub && bIsEpub then 1
    else SeedCount(b) - SeedCount(a)
  }

  /** The part of a release the comparator looks at. */
  datatype RankKey = RankKey(epub: bool, seeders: int)

  function KeyOf(r: Release): RankKey {
    RankKey(IsEpub(r), SeedCount(r))
  }

  function HasKey(k: RankKey): Release -> bool {
    r => KeyOf(r) == k
  }

  function EbookWithKey(k: RankKey): Release -> bool {
    r => IsEbookRelease(r) && KeyOf(r) == k
  }

  /** The comparator ties exactly the releases with equal keys. */
  lemma CompareTiesEqualKeys(a: Release, b: Release)
    ensures Compare(a, b) == 0 <==> KeyOf(a) == KeyOf(b)
    ensures Compare(b, a) == -Compare(a, b)
  {
  }

  /** Inserts `x` in front of the first element it does not sort after; every
      element it passes sorts strictly before it. */
  function Insert(x: Release, s: seq<Release>): (r: seq<Release>)
    ensures multiset(r) == multiset(s) + multiset{x}
  {
    if s == [] then [x]
    else if Compare(x, s[0]) <= 0 then [x] + s
    else
      assert s == [s[0]] + s[1..];
      [s[0]] + Insert(x, s[1..])
  }

  /** A stable insertion sort under `Compare`, standing for the stable
      `Array.prototype.sort`. */
  function Rank(s: seq<Release>): (r: seq<Release>)
    ensures multiset(r) == multiset(s)
  {
    if s == [] then []
    else
      assert s == [s[0]] + s[1..];
      Insert(s[0], Rank(s[1..]))
  }

  /** Every pair of positions agrees with the comparator. */
  ghost predicate Ranked(s: seq<Release>) {
    forall i, j :: 0 <= i < j < |s| ==> Compare(s[i], s[j]) <= 0
  }

  lemma {:induction false} InsertRanked(x: Release, s: seq<Release>)
    requires Ranked(s)
    ensures Ranked(Insert(x, s))
  {
    if s == [] {
    } else if Compare(x, s[0]) <= 0 {
      var r := [x] + s;
      forall i, j | 0 <= i < j < |r| ensures Compare(r[i], r[j]) <= 0 {
        if i == 0 && j > 1 {
          assert Compare(s[0], s[j - 1]) <= 0;
        }
      }
    } else {
      var t := Insert(x, s[1..]);
      assert Ranked(s[1..]) by {
        forall i, j | 0 <= i < j < |s[1..]| ensures Compare(s[1..][i], s[1..][j]) <= 0 {
          assert s[1..][i] == s[i + 1] && s[1..][j] == s[j + 1];
        }
      }
      InsertRanked(x, s[1..]);
      var r := [s[0]] + t;
      forall i, j | 0 <= i < j < |r| ensures Compare(r[i], r[j]) <= 0 {
        if i == 0 {
          var y := r[j];
          assert y in multiset(t) by { assert y == t[j - 1]; }
          if y != x {
            assert y in multiset(s[1..]);
            var k :| 0 <= k < |s[1..]| && s[1..][k] == y;
            assert s[k + 1] == y;
          }
        } else {
          assert r[i] == t[i - 1] && r[j] == t[j - 1];
        }
      }
    }
  }

  lemma {:induction false} RankRanked(s: seq<Release>)
    ensures Ranked(Rank(s))
  {
    if s != [] {
      RankRanked(s[1..]);
      InsertRanked(s[0], Rank(s[1..]));
    }
  }

  /** Inserting `x` adds it to its own key's group, at the front of that group,
      and changes no other group. */
  lemma {:induction false} InsertByKey(x: Release, s: seq<Release>, k: RankKey)
    ensures Filter(Insert(x, s), HasKey(k)) ==
            if KeyOf(x) == k then [x] + Filter(s, HasKey(k)) else Filter(s, HasKey(k))
  {
    if s == [] {
      FilterCons(x, s, HasKey(k));
    } else if Compare(x, s[0]) <= 0 {
      FilterCons(x, s, HasKey(k));
    } else {
      CompareTiesEqualKeys(x, s[0]);
      InsertByKey(x, s[1..], k);
      FilterCons(s[0], Insert(x, s[1..]), HasKey(k));
      FilterCons(s[0], s[1..], HasKey(k));
      assert [s[0]] + s[1..] == s;
    }
  }

  /** Stability: within every key's group the sort keeps the input order. */
  lemma {:induction false} RankStable(s: seq<Release>, k: RankKey)
    ensures Filter(Rank(s), HasKey(k)) == Filter(s, HasKey(k))
  {
    if s != [] {
      RankStable(s[1..], k);
      InsertByKey(s[0], Rank(s[1..]), k);
    }
  }

  lemma {:induction false} FilterEbookThenKey(s: seq<Release>, k: RankKey)
    ensures Filter(EbookReleases(s), HasKey(k)) == Filter(s, EbookWithKey(k))
  {
    if s != [] {
      var x, rest := s[0], s[1..];
      assert s == [x] + rest;
      FilterEbookThenKey(rest, k);
      FilterCons(x, rest, IsEbookRelease);
      FilterCons(x, rest, EbookWithKey(k));
      assert EbookWithKey(k)(x) == (IsEbookRelease(x) && HasKey(k)(x));
      if IsEbookRelease(x) {
        assert EbookReleases(s) == [x] + EbookReleases(rest);
        FilterCons(x, EbookReleases(rest), HasKey(k));
      } else {
        assert EbookReleases(s) == EbookReleases(rest);
      }
    }
  }

  /** The ranked list of the filter and sort chain. */
  function RankedEbooks(rs: seq<Release>): (r: seq<Release>)
    ensures multiset(r) == multiset(EbookReleases(rs))
  {
    Rank(EbookReleases(rs))
  }

  /** The ranked list holds exactly the filtered results, each as often as in the
      input: nothing is added, duplicated or lost. */
  lemma RankedEbooksContents(rs: seq<Release>)
    ensures forall r :: multiset(RankedEbooks(rs))[r] == if IsEbookRelease(r) then multiset(rs)[r] else 0
    ensures forall r :: r in RankedEbooks(rs) <==> r in rs && IsEbookRelease(r)
  {
    forall r ensures multiset(RankedEbooks(rs))[r] == if IsEbookRelease(r) then multiset(rs)[r] else 0 {
      FilterCount(rs, IsEbookRelease, r);
    }
    forall r ensures r in RankedEbooks(rs) <==> r in rs && IsEbookRelease(r) {
      assert r in RankedEbooks(rs) <==> r in multiset(RankedEbooks(rs));
      assert r in rs <==> r in multiset(rs);
    }
  }

  /** The order of the ranked list: EPUB titles before all others, then seeders
      non-increasing within each of the two groups, and, within one key, the
      input order. */
  lemma RankedEbooksOrder(rs: seq<Release>, k: RankKey)
    ensures forall i, j :: 0 <= i < j < |RankedEbooks(rs)| && IsEpub(RankedEbooks(rs)[j]) ==> IsEpub(RankedEbooks(rs)[i])
    ensures forall i, j :: 0 <= i < j < |RankedEbooks(rs)| && IsEpub(RankedEbooks(rs)[i]) == IsEpub(RankedEbooks(rs)[j]) ==>
              SeedCount(RankedEbooks(rs)[j]) <= SeedCount(RankedEbooks(rs)[i])
    ensures Filter(RankedEbooks(rs), HasKey(k)) == Filter(rs, EbookWithKey(k))
  {
    RankRanked(EbookReleases(rs));
    RankStable(EbookReleases(rs), k);
    FilterEbookThenKey(rs, k);
  }

  /** Two usable results, an EPUB one and another: the EPUB one is ranked first
      in either input order, whatever the seeder counts. */
  lemma EpubBeatsSeeders(epub: Release, other: Release)
    requires IsEbookRelease(epub) && IsEbookRelease(other)
    requires IsEpub(epub) && !IsEpub(other)
    ensures RankedEbooks([epub, other]) == [epub, other]
    ensures RankedEbooks([other, epub]) == [epub, other]
  {
    FilterCons(epub, [other], IsEbookRelease);
    FilterCons(other, [epub], IsEbookRelease);
    assert EbookReleases([epub, other]) == [epub, other];
    assert EbookReleases([other, epub]) == [other, epub];
    assert Rank([epub]) == [epub] && Rank([other]) == [other];
  }

  /** The three ways the selection step ends. */
  datatype Selection = NoResults | NoEbooks | Best(release: Release)

  /** The empty-results check, then the filter and sort chain, then its head. */
  function SelectBest(results: Option<seq<Release>>): (sel: Selection)
    ensures sel == NoResults <==> results.None? || results.value == []
    ensures sel == NoEbooks <==> results.Some? && results.value != [] && forall r :: r in results.value ==> !IsEbookRelease(r)
    ensures sel.Best? ==> IsEbookRelease(sel.release) && sel.release in results.value
  {
    if results.None? || |results.value| == 0 then NoResults
    else
      var ranked := RankedEbooks(results.value);
      RankedEbooksContents(results.value);
      if ranked == [] then NoEbooks
      else
        assert ranked[0] in ranked;
        Best(ranked[0])
  }

  /** The selected release is an ebook that no other usable result outranks, and
      among the usable results with its key it is the earliest in the input. */
  lemma BestIsFirst(rs: seq<Release>)
    ensures SelectBest(Some(rs)).Best? ==>
      var best := SelectBest(Some(rs)).release;
      && (forall q :: q in rs && IsEbookRelease(q) ==> Compare(best, q) <= 0)
      && Filter(rs, EbookWithKey(KeyOf(best))) != []
      && Filter(rs, EbookWithKey(KeyOf(best)))[0] == best
  {
    var ranked := RankedEbooks(rs);
    if rs != [] && ranked != [] {
      assert SelectBest(Some(rs)).release == ranked[0];
      HeadOutranks(rs);
      HeadEarliest(rs);
    }
  }

  /** No usable result outranks the head of the ranked list. */
  lemma HeadOutranks(rs: seq<Release>)
    requires RankedEbooks(rs) != []
    ensures forall q :: q in rs && IsEbookRelease(q) ==> Compare(RankedEbooks(rs)[0], q) <= 0
  {
    var ranked := RankedEbooks(rs);
    var best := ranked[0];
    RankRanked(EbookReleases(rs));
    forall q | q in rs && IsEbookRelease(q) ensures Compare(best, q) <= 0 {
      FilterCount(rs, IsEbookRelease, q);
      assert q in multiset(ranked);
      var j :| 0 <= j < |ranked| && ranked[j] == q;
      if j == 0 {
        CompareTiesEqualKeys(q, q);
      }
    }
  }

  /** The head of the ranked list is the earliest usable result with its key. */
  lemma HeadEarliest(rs: seq<Release>)
    requires RankedEbooks(rs) != []
    ensures Filter(rs, EbookWithKey(KeyOf(RankedEbooks(rs)[0]))) != []
    ensures Filter(rs, EbookWithKey(KeyOf(RankedEbooks(rs)[0])))[0] == RankedEbooks(rs)[0]
  {
    var ranked := RankedEbooks(rs);
    var best := ranked[0];
    var k := KeyOf(best);
    RankStable(EbookReleases(rs), k);
    FilterEbookThenKey(rs, k);
    assert ranked == [best] + ranked[1..];
    FilterCons(best, ranked[1..], HasKey(k));
  }

  /** `downloadUrl || magnetUrl`: the link handed to the torrent client. */
  function DownloadLink(r: Release): (link: Option<string>)
    ensures link.Some? <==> Truthy(r.downloadUrl) || Truthy(r.magnetUrl)
    ensures link.Some? ==> link.value != "" && (link == r.downloadUrl || link == r.magnetUrl)
    ensures Truthy(r.downloadUrl) ==> link == r.downloadUrl
  {
    if Truthy(r.downloadUrl) then r.downloadUrl
    else if Truthy(r.magnetUrl) then r.magnetUrl
    else None
  }
}
