/**
 * The incremental crawler script (`main.py`). One fingerprint set, seeded
 * from the images already on disk, is shared by every query of a run, so an
 * image is saved at most once per fingerprint across queries and across
 * runs. The browser, the network and the disk are inputs: a query comes with
 * the heights its page reports, the image tags of the expanded page, and the
 * fate of every fetch and file write it would attempt.
 */
module MainCrawler {
  import opened Options
  import opened Fingerprints
  import opened ScrollExpander
  import opened Candidates

  /** The caller-owned set `image_hashes`, passed to and updated by every search. */
  class HashStore {
    var hashes: set<Fingerprint>

    constructor (initial: set<Fingerprint>)
      ensures hashes == initial
    {
      hashes := initial;
    }
  }

  /** Reading one entry of the image directory. */
  datatype FileRead = ReadFailed | ReadOk(data: Bytes)

  /** The fingerprints of the readable, decodable files of the image directory, if it exists. */
  ghost function SeededHashes(dir: Option<seq<FileRead>>, hash: Bytes -> Option<Fingerprint>): set<Fingerprint> {
    match dir
    case None => {}
    case Some(files) =>
      set file | file in files && file.ReadOk? && hash(file.data).Some? :: hash(file.data).value
  }

  /**
   * `load_existing_image_hashes`: an absent directory gives the empty set;
   * otherwise every file that reads and decodes contributes its fingerprint,
   * and a file that fails is skipped without ending the scan.
   */
  method LoadExistingImageHashes(dir: Option<seq<FileRead>>, hash: Bytes -> Option<Fingerprint>)
    returns (imageHashes: set<Fingerprint>)
    ensures imageHashes == SeededHashes(dir, hash)
    ensures dir.None? ==> imageHashes == {}
  {
    imageHashes := {};
    if dir.Some? {
      var files := dir.value;
      for i := 0 to |files|
        invariant imageHashes == SeededHashes(Some(files[..i]), hash)
      {
        assert forall file :: file in files[..i + 1] <==> file in files[..i] || file == files[i];
        match files[i]
        case ReadFailed =>
        case ReadOk(data) =>
          match hash(data)
          case None =>
          case Some(f) => imageHashes := imageHashes + {f};
      }
      assert files[..|files|] == files;
    }
  }

  /**
   * `google_image_search` of the incremental crawler: scroll until the page
   * stops growing, extract the thumbnails, and walk them with the shared
   * set. When the scroll never converges the call does not return; the model
   * then reports `converged == false` and leaves everything untouched. With
   * no candidates it returns (0, 0) before creating the output directories
   * or touching the set.
   */
  method GoogleImageSearch(store: HashStore, heights: seq<Round>, tags: seq<ImgTag>,
                           ios: seq<CandidateIo>, hash: Bytes -> Option<Fingerprint>)
    returns (converged: bool, downloaded: nat, skipped: nat, dirsCreated: bool, writes: seq<FileWrite>)
    requires |ios| == |ExtractCandidates(tags)|
    modifies store
    ensures converged <==> EventuallyStops(heights)
    ensures dirsCreated <==> converged && ExtractCandidates(tags) != []
    ensures !dirsCreated ==> store.hashes == old(store.hashes) && downloaded == 0 && skipped == 0 && writes == []
    ensures converged ==>
              Tally(store.hashes, downloaded, skipped, writes)
              == Session(MainPolicy, Zip(ExtractCandidates(tags), ios), Fresh(old(store.hashes)), hash)
  {
    var rounds, failures, scrollAttempts;
    converged, rounds, failures, scrollAttempts := ScrollToBottom(heights);
    downloaded, skipped, dirsCreated, writes := 0, 0, false, [];
    if !converged {
      return;
    }
    var candidates := ExtractCandidates(tags);
    if |candidates| == 0 {
      return;
    }
    dirsCreated := true;
    ghost var items := Zip(candidates, ios);
    for idx := 0 to |candidates|
      invariant Tally(store.hashes, downloaded, skipped, writes)
                == Session(MainPolicy, items[..idx], Fresh(old(store.hashes)), hash)
    {
      ghost var t := Tally(store.hashes, downloaded, skipped, writes);
      SessionSnoc(MainPolicy, items, idx, Fresh(old(store.hashes)), hash);
      assert items[idx] == Item(candidates[idx], ios[idx]);
      var imgUrl := candidates[idx].url;
      if Contains(imgUrl, FaviconMarker) || |imgUrl| < MinUrlLength {
        assert FateOf(MainPolicy, items[idx], hash) == UrlRejected;
        skipped := skipped + 1;
      } else if ios[idx].fetch.FetchFailed? {
        assert FateOf(MainPolicy, items[idx], hash) == FetchFailure;
        skipped := skipped + 1;
      } else {
        var imageData := ios[idx].fetch.data;
        var decoded := hash(imageData);
        // A decoding failure reaches the outer handler: neither counter moves.
        if decoded.Some? {
          var imgHash := decoded.value;
          assert FateOf(MainPolicy, items[idx], hash) == Decoded(imgHash, imageData);
          if imgHash in store.hashes {
            skipped := skipped + 1;
          } else {
            store.hashes := store.hashes + {imgHash};
            var w := ios[idx].write;
            // A failed write also reaches the outer handler, after the insertion.
            if !w.ImageWriteFailed? {
              writes := writes + [ImageFile(imgHash, imageData)];
              if w.BothWritten? {
                writes := writes + [TitleFile(imgHash, Caption(candidates[idx].title))];
                downloaded := downloaded + 1;
              }
            }
          }
        } else {
          assert FateOf(MainPolicy, items[idx], hash) == DecodeFailure;
        }
      }
      assert Tally(store.hashes, downloaded, skipped, writes) == Step(MainPolicy, t, items[idx], hash);
    }
    assert items[..|candidates|] == items;
  }

  /** The word that ends the run loop. */
  const Sentinel := "done"

  function LowerChar(c: char): char {
    if 'A' <= c <= 'Z' then (c as int + 32) as char else c
  }

  /** `str.lower` on ASCII letters; no other character lower-cases into a letter of "done". */
  function Lower(s: string): string {
    if s == [] then [] else [LowerChar(s[0])] + Lower(s[1..])
  }

  predicate IsDone(query: string) {
    Lower(query) == Sentinel
  }

  /** Lower-casing works character by character. */
  lemma {:induction false} LowerAt(s: string, k: nat)
    requires k < |s|
    requires |Lower(s)| == |s|
    ensures Lower(s)[k] == LowerChar(s[k])
  {
    if k > 0 {
      LowerLength(s[1..]);
      LowerAt(s[1..], k - 1);
    }
  }

  lemma {:induction false} LowerLength(s: string)
    ensures |Lower(s)| == |s|
  {
    if s != [] {
      LowerLength(s[1..]);
    }
  }

  /** The sentinel is "done" in any mix of upper and lower case, and nothing else. */
  lemma DoneSpellings(query: string)
    ensures IsDone(query) <==>
              && |query| == 4
              && (query[0] == 'd' || query[0] == 'D')
              && (query[1] == 'o' || query[1] == 'O')
              && (query[2] == 'n' || query[2] == 'N')
              && (query[3] == 'e' || query[3] == 'E')
  {
    LowerLength(query);
    var l := Lower(query);
    if |query| == 4 {
      LowerAt(query, 0);
      LowerAt(query, 1);
      LowerAt(query, 2);
      LowerAt(query, 3);
      if l[0] == 'd' && l[1] == 'o' && l[2] == 'n' && l[3] == 'e' {
        assert l == Sentinel;
      }
    }
  }

  /** One line typed at the prompt, with everything the search for it would meet. */
  datatype Query = Query(text: string, heights: seq<Round>, tags: seq<ImgTag>, ios: seq<CandidateIo>)

  /** The environment supplies one I/O outcome per extracted candidate. */
  predicate WellFormed(q: Query) {
    |q.ios| == |ExtractCandidates(q.tags)|
  }

  /** How the run loop ends. */
  datatype Ending =
    | SentinelEntered   // the operator typed "done"
    | InputExhausted    // no more queries are given to the model
    | ScrollNeverEnds   // a page kept changing height: the search never returns
    | ListingFailed     // `os.listdir` on a missing `images` directory raises

  function SumDownloaded(reports: seq<(nat, nat)>): nat {
    if reports == [] then 0 else SumDownloaded(reports[..|reports| - 1]) + reports[|reports| - 1].0
  }

  function SumSkipped(reports: seq<(nat, nat)>): nat {
    if reports == [] then 0 else SumSkipped(reports[..|reports| - 1]) + reports[|reports| - 1].1
  }

  /**
   * One finished query keeps the run's bookkeeping: its files are appended to
   * the log and its counts to the reports.
   */
  lemma QueryKeepsAccounts(seed: set<Fingerprint>, hashes: set<Fingerprint>, reports: seq<(nat, nat)>,
                           log: seq<FileWrite>, items: seq<Item>, hash: Bytes -> Option<Fingerprint>, r: Tally)
    requires Accounts(seed, Tally(hashes, SumDownloaded(reports), SumSkipped(reports), log))
    requires r == Session(MainPolicy, items, Fresh(hashes), hash)
    ensures Accounts(seed, Tally(r.hashes, SumDownloaded(reports + [(r.downloaded, r.skipped)]),
                                 SumSkipped(reports + [(r.downloaded, r.skipped)]), log + r.writes))
  {
    var before := Tally(hashes, SumDownloaded(reports), SumSkipped(reports), log);
    assert Fresh(before.hashes) == Fresh(hashes);
    SessionShift(MainPolicy, items, before, hash);
    SessionKeepsAccounts(seed, MainPolicy, items, before, hash);
    assert (reports + [(r.downloaded, r.skipped)])[..|reports|] == reports;
  }

  /** What the run has produced so far: the shared set, one report per finished query, every file written. */
  datatype RunState = RunState(hashes: set<Fingerprint>, reports: seq<(nat, nat)>, log: seq<FileWrite>)

  /** One query's search from the shared set `h`, once its page has stopped growing. */
  function QuerySession(q: Query, h: set<Fingerprint>, hash: Bytes -> Option<Fingerprint>): Tally
    requires WellFormed(q)
  {
    Session(MainPolicy, Zip(ExtractCandidates(q.tags), q.ios), Fresh(h), hash)
  }

  /**
   * The run loop over finished queries, in order: each query searches with
   * the set the previous ones left, its counts are appended to the reports
   * and its files to the log.
   */
  function Searched(seed: set<Fingerprint>, queries: seq<Query>, hash: Bytes -> Option<Fingerprint>): RunState
    requires forall q :: q in queries ==> WellFormed(q)
  {
    if queries == [] then RunState(seed, [], [])
    else
      var s := Searched(seed, queries[..|queries| - 1], hash);
      var r := QuerySession(queries[|queries| - 1], s.hashes, hash);
      RunState(r.hashes, s.reports + [(r.downloaded, r.skipped)], s.log + r.writes)
  }

  /**
   * Across any sequence of finished queries the run's bookkeeping holds: the
   * set only grows from the seed, no path is written twice, every file saved
   * carries a fingerprint neither seeded nor saved earlier, and the reported
   * downloads add up to the caption files written.
   */
  lemma {:induction false} SearchedKeepsAccounts(seed: set<Fingerprint>, queries: seq<Query>, hash: Bytes -> Option<Fingerprint>)
    requires forall q :: q in queries ==> WellFormed(q)
    ensures var s := Searched(seed, queries, hash);
            Accounts(seed, Tally(s.hashes, SumDownloaded(s.reports), SumSkipped(s.reports), s.log))
  {
    if queries != [] {
      var init := queries[..|queries| - 1];
      assert forall q :: q in init ==> q in queries;
      SearchedKeepsAccounts(seed, init, hash);
      var s := Searched(seed, init, hash);
      var q := queries[|queries| - 1];
      assert q in queries;
      QueryKeepsAccounts(seed, s.hashes, s.reports, s.log, Zip(ExtractCandidates(q.tags), q.ios), hash,
                         QuerySession(q, s.hashes, hash));
    } else {
      assert TitleCount([]) == 0;
    }
  }

  /** Whether any of the queries extracted a candidate, so that its search created the `images` directory. */
  function AnyCandidates(queries: seq<Query>): bool {
    if queries == [] then false
    else AnyCandidates(queries[..|queries| - 1]) || ExtractCandidates(queries[|queries| - 1].tags) != []
  }

  /** One more finished query: the run loop's step, as seen by the fold. */
  lemma SearchedSnoc(seed: set<Fingerprint>, queries: seq<Query>, k: nat, hash: Bytes -> Option<Fingerprint>)
    requires forall q :: q in queries ==> WellFormed(q)
    requires k < |queries|
    ensures forall q :: q in queries[..k + 1] ==> WellFormed(q)
    ensures var s := Searched(seed, queries[..k], hash);
            var r := QuerySession(queries[k], s.hashes, hash);
            Searched(seed, queries[..k + 1], hash) == RunState(r.hashes, s.reports + [(r.downloaded, r.skipped)], s.log + r.writes)
    ensures AnyCandidates(queries[..k + 1]) == (AnyCandidates(queries[..k]) || ExtractCandidates(queries[k].tags) != [])
  {
    assert queries[..k + 1][..k] == queries[..k];
  }

  /**
   * Query `j` of the run finished: it was not "done", its page stopped
   * growing, and the `images` directory existed for its report.
   */
  ghost predicate Finished(dir: Option<seq<FileRead>>, queries: seq<Query>, j: nat)
    requires j < |queries|
  {
    && !IsDone(queries[j].text)
    && EventuallyStops(queries[j].heights)
    && (dir.Some? || AnyCandidates(queries[..j + 1]))
  }

  /**
   * Why the run stops after `n` finished queries: the input ran out, or query
   * `n` is "done", or its page never stops growing, or else its report
   * lists a missing `images` directory.
   */
  ghost function StopAt(queries: seq<Query>, n: nat): Ending
    requires n <= |queries|
  {
    if n == |queries| then InputExhausted
    else if IsDone(queries[n].text) then SentinelEntered
    else if !EventuallyStops(queries[n].heights) then ScrollNeverEnds
    else ListingFailed
  }

  /** When query `n` did not finish, each ending happens exactly under its own condition. */
  lemma StopAtExact(dir: Option<seq<FileRead>>, queries: seq<Query>, n: nat)
    requires n <= |queries|
    requires n < |queries| ==> !Finished(dir, queries, n)
    ensures StopAt(queries, n) == InputExhausted <==> n == |queries|
    ensures StopAt(queries, n) == SentinelEntered <==> n < |queries| && IsDone(queries[n].text)
    ensures StopAt(queries, n) == ScrollNeverEnds <==>
              n < |queries| && !IsDone(queries[n].text) && !EventuallyStops(queries[n].heights)
    ensures StopAt(queries, n) == ListingFailed <==>
              && n < |queries| && !IsDone(queries[n].text) && EventuallyStops(queries[n].heights)
              && dir.None? && !AnyCandidates(queries[..n + 1])
  {
  }

  /**
   * The script's main block: seed the set from the `images` directory, then
   * search for query after query with the same set until "done". `reports`
   * holds each finished query's (downloaded, skipped); `log` is every file
   * written. Reports, log and the final set are exactly those of the run
   * loop over the finished queries. The run stops at the first query that is
   * "done", whose page never stops growing, or whose report would list a
   * missing `images` directory, and otherwise when the input runs out.
   */
  method Run(dir: Option<seq<FileRead>>, hash: Bytes -> Option<Fingerprint>, queries: seq<Query>)
    returns (reports: seq<(nat, nat)>, hashes: set<Fingerprint>, log: seq<FileWrite>, ending: Ending)
    requires forall q :: q in queries ==> WellFormed(q)
    ensures |reports| <= |queries|
    ensures forall q :: q in queries[..|reports|] ==> WellFormed(q)
    ensures RunState(hashes, reports, log) == Searched(SeededHashes(dir, hash), queries[..|reports|], hash)
    ensures forall j :: 0 <= j < |reports| ==> Finished(dir, queries, j)
    ensures ending == InputExhausted <==> |reports| == |queries|
    ensures ending == SentinelEntered <==> |reports| < |queries| && IsDone(queries[|reports|].text)
    ensures ending == ScrollNeverEnds <==>
              && |reports| < |queries| && !IsDone(queries[|reports|].text)
              && !EventuallyStops(queries[|reports|].heights)
    ensures ending == ListingFailed <==>
              && |reports| < |queries| && !IsDone(queries[|reports|].text)
              && EventuallyStops(queries[|reports|].heights)
              && dir.None? && !AnyCandidates(queries[..|reports| + 1])
    ensures |reports| < |queries| ==> !Finished(dir, queries, |reports|)
    ensures ending == StopAt(queries, |reports|)
    ensures ending == ListingFailed ==> log == []
    ensures Accounts(SeededHashes(dir, hash), Tally(hashes, SumDownloaded(reports), SumSkipped(reports), log))
  {
    var seeded := LoadExistingImageHashes(dir, hash);
    var store := new HashStore(seeded);
    var imagesDirExists := dir.Some?;
    reports, log, ending := [], [], InputExhausted;
    var i := 0;
    while i < |queries|
      invariant 0 <= i <= |queries| && |reports| == i
      invariant forall q :: q in queries[..i] ==> WellFormed(q)
      invariant RunState(store.hashes, reports, log) == Searched(seeded, queries[..i], hash)
      invariant forall j :: 0 <= j < i ==> Finished(dir, queries, j)
      invariant imagesDirExists <==> dir.Some? || AnyCandidates(queries[..i])
      invariant !imagesDirExists ==> log == []
    {
      var query := queries[i];
      if IsDone(query.text) {
        ending := SentinelEntered;
        break;
      }
      assert WellFormed(query);
      var converged, downloaded, skipped, dirsCreated, writes :=
        GoogleImageSearch(store, query.heights, query.tags, query.ios, hash);
      if !converged {
        ending := ScrollNeverEnds;
        break;
      }
      SearchedSnoc(seeded, queries, i, hash);
      imagesDirExists := imagesDirExists || dirsCreated;
      if !imagesDirExists {
        // No image has ever been saved in this run, so the listing for the report raises.
        ending := ListingFailed;
        break;
      }
      log := log + writes;
      reports := reports + [(downloaded, skipped)];
      i := i + 1;
    }
    hashes := store.hashes;
    assert (forall q :: q in queries[..i] ==> WellFormed(q)) && queries[..|reports|] == queries[..i];
    SearchedKeepsAccounts(seeded, queries[..i], hash);
    StopAtExact(dir, queries, i);
  }
}
