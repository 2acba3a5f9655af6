/**
 * Candidate extraction and the per-candidate filter-and-dedupe rule of
 * `google_image_search`. Both crawler scripts walk the candidates in page
 * order with a set of fingerprints and two counters; they differ in a URL
 * pre-filter and in whether a failed fetch is counted as skipped. A `Policy`
 * names those two differences, and `Session` is the walk as a left fold, the
 * specification that the scripts' loops are proved against.
 */
module Candidates {
  import opened Options
  import opened Fingerprints

  /** The thumbnail host that marks a result image in the page. */
  const ThumbnailHost := "encrypted-tbn0.gstatic.com"
  /** URLs shorter than this are rejected by the pre-filter. */
  const MinUrlLength: nat := 50
  const FaviconMarker := "favicon"
  /** The label in front of the caption text ("제목: ", "title: "). */
  const CaptionLabel := "\U{C81C}\U{BAA9}: "

  /** Python's `pat in s` for strings. */
  predicate Contains(s: string, pat: string)
    decreases |s|
  {
    if |s| < |pat| then false
    else if s[..|pat|] == pat then true
    else |s| > 0 && Contains(s[1..], pat)
  }

  /** An `img` element of the result page: its `src` and `alt` attributes, when present. */
  datatype ImgTag = ImgTag(src: Option<string>, alt: Option<string>)

  /** An image reference taken from the page, with its caption. */
  datatype Candidate = Candidate(url: string, title: Option<string>)

  predicate IsThumbnail(tag: ImgTag) {
    tag.src.Some? && Contains(tag.src.value, ThumbnailHost)
  }

  function CandidateOf(tag: ImgTag): Candidate
    requires tag.src.Some?
  {
    Candidate(tag.src.value, tag.alt)
  }

  /** The thumbnail images of the page, in page order, each paired with its own `alt`. */
  function ExtractCandidates(tags: seq<ImgTag>): seq<Candidate> {
    if tags == [] then []
    else if IsThumbnail(tags[0]) then [CandidateOf(tags[0])] + ExtractCandidates(tags[1..])
    else ExtractCandidates(tags[1..])
  }

  /**
   * Extraction keeps exactly the thumbnails: every thumbnail tag of the page
   * yields a candidate, every candidate comes from a thumbnail tag, and a page
   * without thumbnails yields none.
   */
  lemma {:induction false} ExtractCandidatesExact(tags: seq<ImgTag>)
    ensures |ExtractCandidates(tags)| <= |tags|
    ensures forall c :: c in ExtractCandidates(tags) ==> Contains(c.url, ThumbnailHost)
    ensures forall i :: 0 <= i < |tags| && IsThumbnail(tags[i]) ==> CandidateOf(tags[i]) in ExtractCandidates(tags)
    ensures forall c :: c in ExtractCandidates(tags) ==>
              exists i :: 0 <= i < |tags| && IsThumbnail(tags[i]) && CandidateOf(tags[i]) == c
    ensures ExtractCandidates(tags) == [] <==> forall i :: 0 <= i < |tags| ==> !IsThumbnail(tags[i])
  {
    if tags != [] {
      ExtractCandidatesExact(tags[1..]);
      assert forall i :: 1 <= i < |tags| ==> tags[i] == tags[1..][i - 1];
      forall c | c in ExtractCandidates(tags)
        ensures exists i :: 0 <= i < |tags| && IsThumbnail(tags[i]) && CandidateOf(tags[i]) == c
      {
        if c in ExtractCandidates(tags[1..]) {
          var j :| 0 <= j < |tags[1..]| && IsThumbnail(tags[1..][j]) && CandidateOf(tags[1..][j]) == c;
          assert tags[j + 1] == tags[1..][j];
        }
      }
    }
  }

  /**
   * Extraction keeps the page order: the candidates of two concatenated
   * pages are those of the first followed by those of the second. With
   * `ExtractCandidatesOfTag` this fixes the result for every page.
   */
  lemma {:induction false} ExtractCandidatesInOrder(a: seq<ImgTag>, b: seq<ImgTag>)
    ensures ExtractCandidates(a + b) == ExtractCandidates(a) + ExtractCandidates(b)
  {
    if a == [] {
      assert a + b == b;
    } else {
      assert (a + b)[0] == a[0];
      assert (a + b)[1..] == a[1..] + b;
      ExtractCandidatesInOrder(a[1..], b);
    }
  }

  /** One tag gives its own candidate when it is a thumbnail, and nothing otherwise. */
  lemma ExtractCandidatesOfTag(tag: ImgTag)
    ensures ExtractCandidates([tag]) == if IsThumbnail(tag) then [CandidateOf(tag)] else []
  {
    assert [tag][1..] == [];
  }

  /** The pre-filter of the incremental crawler: a favicon, or a URL too short to be an image. */
  predicate IsRejectedUrl(url: string) {
    Contains(url, FaviconMarker) || |url| < MinUrlLength
  }

  /** The text written to a caption file; a missing `alt` prints as `None`. */
  function Caption(title: Option<string>): string {
    CaptionLabel + (match title case None => "None" case Some(t) => t) + "\n"
  }

  /** What the network gives for one candidate's URL. */
  datatype FetchResult = FetchFailed | Fetched(data: Bytes)

  /** How far the two file writes for a novel image get. */
  datatype WriteResult = ImageWriteFailed | TitleWriteFailed | BothWritten

  /** The outcome of every I/O step a candidate could reach. */
  datatype CandidateIo = CandidateIo(fetch: FetchResult, write: WriteResult)

  datatype Item = Item(candidate: Candidate, io: CandidateIo)

  /** Each candidate with the I/O outcomes the environment gives for it. */
  function Zip(cs: seq<Candidate>, ios: seq<CandidateIo>): seq<Item>
    requires |cs| == |ios|
  {
    seq(|cs|, i requires 0 <= i < |cs| => Item(cs[i], ios[i]))
  }

  /** The two ways the scripts' candidate loops differ. */
  datatype Policy = Policy(urlPrefilter: bool, countFetchFailures: bool)

  /** `main.py`: pre-filters URLs and counts a failed fetch as skipped. */
  const MainPolicy := Policy(true, true)
  /** `google_image_crawler.py`: no pre-filter; a failed fetch goes to the outer handler. */
  const CrawlerPolicy := Policy(false, false)

  /** How far a candidate gets before the fingerprint set is consulted. */
  datatype Fate =
    | UrlRejected
    | FetchFailure
    | DecodeFailure
    | Decoded(hash: Fingerprint, data: Bytes)

  function FateOf(policy: Policy, item: Item, hash: Bytes -> Option<Fingerprint>): Fate {
    if policy.urlPrefilter && IsRejectedUrl(item.candidate.url) then UrlRejected
    else match item.io.fetch
      case FetchFailed => FetchFailure
      case Fetched(data) =>
        match hash(data)
        case None => DecodeFailure
        case Some(f) => Decoded(f, data)
  }

  /** The files written for a novel image, as far as the writes get. */
  function NovelWrites(f: Fingerprint, data: Bytes, title: Option<string>, w: WriteResult): seq<FileWrite> {
    match w
    case ImageWriteFailed => []
    case TitleWriteFailed => [ImageFile(f, data)]
    case BothWritten => [ImageFile(f, data), TitleFile(f, Caption(title))]
  }

  /**
   * The loop's state: the fingerprint set, `downloaded_images`,
   * `skipped_images`, and the files written so far.
   */
  datatype Tally = Tally(hashes: set<Fingerprint>, downloaded: nat, skipped: nat, writes: seq<FileWrite>)

  /** One candidate: the body of the candidate loop. */
  function Step(policy: Policy, t: Tally, item: Item, hash: Bytes -> Option<Fingerprint>): Tally {
    match FateOf(policy, item, hash)
    case UrlRejected => t.(skipped := t.skipped + 1)
    case FetchFailure => if policy.countFetchFailures then t.(skipped := t.skipped + 1) else t
    case DecodeFailure => t
    case Decoded(f, data) =>
      if f in t.hashes then t.(skipped := t.skipped + 1)
      else
        var w := item.io.write;
        t.(hashes := t.hashes + {f},
           downloaded := t.downloaded + (if w.BothWritten? then 1 else 0),
           writes := t.writes + NovelWrites(f, data, item.candidate.title, w))
  }

  /** The candidate loop over `items`, in order, from state `t`. */
  function Session(policy: Policy, items: seq<Item>, t: Tally, hash: Bytes -> Option<Fingerprint>): Tally {
    if items == [] then t
    else Step(policy, Session(policy, items[..|items| - 1], t, hash), items[|items| - 1], hash)
  }

  /**
   * Along a session the set only grows, the counters only grow, at most one
   * counter moves per candidate, and files are only ever appended.
   */
  lemma {:induction false} SessionMonotone(policy: Policy, items: seq<Item>, t: Tally, hash: Bytes -> Option<Fingerprint>)
    ensures var r := Session(policy, items, t, hash);
            && t.hashes <= r.hashes
            && t.downloaded <= r.downloaded && t.skipped <= r.skipped
            && r.downloaded + r.skipped <= t.downloaded + t.skipped + |items|
            && |t.writes| <= |r.writes| && r.writes[..|t.writes|] == t.writes
  {
    if items != [] {
      SessionMonotone(policy, items[..|items| - 1], t, hash);
    }
  }

  /** One more candidate: the loop's step, as seen by the fold. */
  lemma SessionSnoc(policy: Policy, items: seq<Item>, k: nat, t: Tally, hash: Bytes -> Option<Fingerprint>)
    requires k < |items|
    ensures Session(policy, items[..k + 1], t, hash) == Step(policy, Session(policy, items[..k], t, hash), items[k], hash)
  {
    assert items[..k + 1][..k] == items[..k];
  }

  // ---------------------------------------------------------------------------
  // Order-independent counts over the candidates, used to characterise Session.

  /** Candidates counted as skipped before any fingerprint is looked at. */
  function EarlySkips(policy: Policy, items: seq<Item>, hash: Bytes -> Option<Fingerprint>): nat {
    if items == [] then 0
    else
      var fate := FateOf(policy, items[|items| - 1], hash);
      EarlySkips(policy, items[..|items| - 1], hash)
        + (if fate.UrlRejected? || (fate.FetchFailure? && policy.countFetchFailures) then 1 else 0)
  }

  /** Candidates that were fetched and fingerprinted. */
  function DecodedCount(policy: Policy, items: seq<Item>, hash: Bytes -> Option<Fingerprint>): nat {
    if items == [] then 0
    else
      DecodedCount(policy, items[..|items| - 1], hash)
        + (if FateOf(policy, items[|items| - 1], hash).Decoded? then 1 else 0)
  }

  /** The fingerprints of the candidates that were fetched and fingerprinted. */
  function DecodedHashes(policy: Policy, items: seq<Item>, hash: Bytes -> Option<Fingerprint>): set<Fingerprint> {
    if items == [] then {}
    else
      var fate := FateOf(policy, items[|items| - 1], hash);
      DecodedHashes(policy, items[..|items| - 1], hash) + (if fate.Decoded? then {fate.hash} else {})
  }

  lemma CardInsert(a: set<Fingerprint>, b: set<Fingerprint>, f: Fingerprint)
    requires a <= b && f !in b
    ensures |(b + {f}) - a| == |b - a| + 1
  {
    assert (b + {f}) - a == (b - a) + {f};
  }

  /**
   * The set gains exactly the fingerprints of the candidates that decoded,
   * whatever became of their file writes: a fingerprint is inserted before
   * its files are written.
   */
  lemma {:induction false} SessionHashes(policy: Policy, items: seq<Item>, t: Tally, hash: Bytes -> Option<Fingerprint>)
    ensures Session(policy, items, t, hash).hashes == t.hashes + DecodedHashes(policy, items, hash)
  {
    if items != [] {
      SessionHashes(policy, items[..|items| - 1], t, hash);
    }
  }

  /**
   * What a session does to the counters, independent of the order of the
   * candidates: each decoded candidate whose fingerprint was already known
   * counts as skipped, so the skips are the early skips plus the decoded
   * candidates that brought no new fingerprint; and the downloads are at
   * most the number of new fingerprints.
   */
  lemma {:induction false} SessionCounts(policy: Policy, items: seq<Item>, t: Tally, hash: Bytes -> Option<Fingerprint>)
    ensures var r := Session(policy, items, t, hash);
            && |r.hashes - t.hashes| <= DecodedCount(policy, items, hash)
            && r.skipped == t.skipped + EarlySkips(policy, items, hash) + DecodedCount(policy, items, hash) - |r.hashes - t.hashes|
            && r.downloaded <= t.downloaded + |r.hashes - t.hashes|
  {
    if items != [] {
      var init, last := items[..|items| - 1], items[|items| - 1];
      SessionCounts(policy, init, t, hash);
      SessionMonotone(policy, init, t, hash);
      var s := Session(policy, init, t, hash);
      var r := Step(policy, s, last, hash);
      assert r == Session(policy, items, t, hash);
      var fate := FateOf(policy, last, hash);
      assert EarlySkips(policy, items, hash) == EarlySkips(policy, init, hash)
        + (if fate.UrlRejected? || (fate.FetchFailure? && policy.countFetchFailures) then 1 else 0);
      assert DecodedCount(policy, items, hash) == DecodedCount(policy, init, hash) + (if fate.Decoded? then 1 else 0);
      if fate.Decoded? && fate.hash !in s.hashes {
        CardInsert(t.hashes, s.hashes, fate.hash);
      } else {
        assert r.hashes == s.hashes;
      }
    }
  }

  // ---------------------------------------------------------------------------
  // Files written and the at-most-once guarantee.

  /** No two writes go to the same path. */
  ghost predicate PathsDistinct(ws: seq<FileWrite>) {
    forall i, j :: 0 <= i < j < |ws| ==> ws[i].Target() != ws[j].Target()
  }

  /** Number of caption files written: the last write of every completed download. */
  function TitleCount(ws: seq<FileWrite>): nat {
    if ws == [] then 0 else TitleCount(ws[..|ws| - 1]) + (if ws[|ws| - 1].TitleFile? then 1 else 0)
  }

  lemma {:induction false} TitleCountAppend(a: seq<FileWrite>, b: seq<FileWrite>)
    ensures TitleCount(a + b) == TitleCount(a) + TitleCount(b)
  {
    if b != [] {
      assert (a + b)[..|a + b| - 1] == a + b[..|b| - 1];
      TitleCountAppend(a, b[..|b| - 1]);
    } else {
      assert a + b == a;
    }
  }

  /**
   * The store's bookkeeping relative to the fingerprints `seed` it started
   * with: every file written carries a fingerprint that was new (neither
   * seeded nor written before), no path was written twice, and
   * `downloaded` is the number of completed downloads.
   */
  ghost predicate Accounts(seed: set<Fingerprint>, t: Tally) {
    && seed <= t.hashes
    && (forall w :: w in t.writes ==> w.hash in t.hashes && w.hash !in seed)
    && PathsDistinct(t.writes)
    && t.downloaded == TitleCount(t.writes)
  }

  /** The files of one novel image: both carry its fingerprint, at different paths. */
  lemma NovelWritesFacts(f: Fingerprint, data: Bytes, title: Option<string>, w: WriteResult)
    ensures var ws := NovelWrites(f, data, title, w);
            && (forall v :: v in ws ==> v.hash == f)
            && PathsDistinct(ws)
            && TitleCount(ws) == if w.BothWritten? then 1 else 0
  {
    var ws := NovelWrites(f, data, title, w);
    if w.BothWritten? {
      assert ws[..1] == [ImageFile(f, data)];
      assert ws[..1][..0] == [];
      assert TitleCount(ws[..1]) == 0;
    } else if w.TitleWriteFailed? {
      assert ws[..0] == [];
    }
  }

  /** Appending writes for a fingerprint none of the earlier writes carries keeps all paths distinct. */
  lemma AppendKeepsPathsDistinct(before: seq<FileWrite>, ws: seq<FileWrite>, f: Fingerprint)
    requires PathsDistinct(before) && PathsDistinct(ws)
    requires forall v :: v in before ==> v.hash != f
    requires forall v :: v in ws ==> v.hash == f
    ensures PathsDistinct(before + ws)
  {
    var all := before + ws;
    forall i, j | 0 <= i < j < |all| ensures all[i].Target() != all[j].Target() {
      if i < |before| && j >= |before| {
        assert all[i] in before && all[j] in ws;
        SamePathSameFingerprint(all[i], all[j]);
      } else if j < |before| {
        assert all[i] == before[i] && all[j] == before[j];
      } else {
        assert all[i] == ws[i - |before|] && all[j] == ws[j - |before|];
      }
    }
  }

  lemma StepKeepsAccounts(seed: set<Fingerprint>, policy: Policy, t: Tally, item: Item, hash: Bytes -> Option<Fingerprint>)
    requires Accounts(seed, t)
    ensures Accounts(seed, Step(policy, t, item, hash))
  {
    var fate := FateOf(policy, item, hash);
    var r := Step(policy, t, item, hash);
    if fate.Decoded? && fate.hash !in t.hashes {
      var f, w := fate.hash, item.io.write;
      var ws := NovelWrites(f, fate.data, item.candidate.title, w);
      assert r == Tally(t.hashes + {f}, t.downloaded + (if w.BothWritten? then 1 else 0), t.skipped, t.writes + ws);
      NovelWritesFacts(f, fate.data, item.candidate.title, w);
      AppendKeepsPathsDistinct(t.writes, ws, f);
      TitleCountAppend(t.writes, ws);
      assert forall v :: v in r.writes ==> v in t.writes || v in ws;
    } else {
      assert r.hashes == t.hashes && r.writes == t.writes && r.downloaded == t.downloaded;
    }
  }

  /** The bookkeeping holds after any number of candidates. */
  lemma {:induction false} SessionKeepsAccounts(seed: set<Fingerprint>, policy: Policy, items: seq<Item>, t: Tally, hash: Bytes -> Option<Fingerprint>)
    requires Accounts(seed, t)
    ensures Accounts(seed, Session(policy, items, t, hash))
  {
    if items != [] {
      SessionKeepsAccounts(seed, policy, items[..|items| - 1], t, hash);
      StepKeepsAccounts(seed, policy, Session(policy, items[..|items| - 1], t, hash), items[|items| - 1], hash);
    }
  }

  /** Under the bookkeeping, no fingerprint is downloaded twice: caption files carry distinct fingerprints. */
  lemma AtMostOneDownloadPerFingerprint(seed: set<Fingerprint>, t: Tally, i: nat, j: nat)
    requires Accounts(seed, t)
    requires i < j < |t.writes| && t.writes[i].TitleFile? && t.writes[j].TitleFile?
    ensures t.writes[i].hash != t.writes[j].hash
    ensures t.writes[i].hash !in seed
  {
    assert t.writes[i] in t.writes;
  }

  /** A session started with fresh counters and no files: the per-call view of the bookkeeping. */
  function Fresh(hashes: set<Fingerprint>): Tally {
    Tally(hashes, 0, 0, [])
  }

  /** Totals `t` with the results `r` of a later fresh session added on. */
  function Shift(t: Tally, r: Tally): Tally {
    Tally(r.hashes, t.downloaded + r.downloaded, t.skipped + r.skipped, t.writes + r.writes)
  }

  /**
   * Running a session on top of earlier totals is the same as running it
   * with fresh counters and adding the results: only the set is carried over.
   */
  lemma {:induction false} SessionShift(policy: Policy, items: seq<Item>, t: Tally, hash: Bytes -> Option<Fingerprint>)
    ensures Session(policy, items, t, hash) == Shift(t, Session(policy, items, Fresh(t.hashes), hash))
  {
    if items != [] {
      var init, last := items[..|items| - 1], items[|items| - 1];
      var r0 := Session(policy, init, Fresh(t.hashes), hash);
      SessionShift(policy, init, t, hash);
      assert Session(policy, items, t, hash) == Step(policy, Shift(t, r0), last, hash);
      assert Session(policy, items, Fresh(t.hashes), hash) == Step(policy, r0, last, hash);
      StepShift(policy, t, r0, last, hash);
    } else {
      assert t.writes + [] == t.writes;
    }
  }

  /** One step on top of earlier totals `t`, from the running state `s` of a fresh session. */
  lemma StepShift(policy: Policy, t: Tally, s: Tally, item: Item, hash: Bytes -> Option<Fingerprint>)
    ensures Step(policy, Shift(t, s), item, hash) == Shift(t, Step(policy, s, item, hash))
  {
    var fate := FateOf(policy, item, hash);
    if fate.Decoded? && fate.hash !in s.hashes {
      var ws := NovelWrites(fate.hash, fate.data, item.candidate.title, item.io.write);
      assert (t.writes + s.writes) + ws == t.writes + (s.writes + ws);
    }
  }

  // ---------------------------------------------------------------------------
  // Rules about single candidates, stated over whole sessions.

  /** Two candidate lists that differ at most in the I/O of candidates the pre-filter rejects. */
  ghost predicate SameUpToRejectedIo(policy: Policy, a: seq<Item>, b: seq<Item>) {
    && |a| == |b|
    && forall i :: 0 <= i < |a| ==>
         && a[i].candidate == b[i].candidate
         && (a[i].io == b[i].io || (policy.urlPrefilter && IsRejectedUrl(a[i].candidate.url)))
  }

  /**
   * A candidate the pre-filter rejects is never fetched: what its fetch or
   * writes would have done makes no difference to the session.
   */
  lemma {:induction false} RejectedNeverFetched(policy: Policy, a: seq<Item>, b: seq<Item>, t: Tally, hash: Bytes -> Option<Fingerprint>)
    requires SameUpToRejectedIo(policy, a, b)
    ensures Session(policy, a, t, hash) == Session(policy, b, t, hash)
  {
    if a != [] {
      assert SameUpToRejectedIo(policy, a[..|a| - 1], b[..|b| - 1]);
      RejectedNeverFetched(policy, a[..|a| - 1], b[..|b| - 1], t, hash);
    }
  }

  /**
   * Two candidates whose downloads return identical bytes that decode to a
   * new fingerprint: the first is saved, the second is skipped as a duplicate.
   */
  lemma IdenticalImagesSavedOnce(policy: Policy, a: Item, b: Item, hashes: set<Fingerprint>, hash: Bytes -> Option<Fingerprint>)
    requires !policy.urlPrefilter || (!IsRejectedUrl(a.candidate.url) && !IsRejectedUrl(b.candidate.url))
    requires a.io.fetch.Fetched? && b.io.fetch == a.io.fetch
    requires hash(a.io.fetch.data).Some? && hash(a.io.fetch.data).value !in hashes
    requires a.io.write.BothWritten?
    ensures var r := Session(policy, [a, b], Fresh(hashes), hash);
            r.downloaded == 1 && r.skipped == 1 && r.hashes == hashes + {hash(a.io.fetch.data).value}
  {
    var t0 := Fresh(hashes);
    assert [a][..0] == [];
    assert Session(policy, [a][..0], t0, hash) == t0;
    var t1 := Session(policy, [a], t0, hash);
    assert t1 == Step(policy, t0, a, hash);
    assert [a, b][..1] == [a];
    assert Session(policy, [a, b], t0, hash) == Step(policy, t1, b, hash);
  }
}
