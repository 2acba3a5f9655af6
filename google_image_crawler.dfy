/**
 * The single-query crawler script (`google_image_crawler.py`). Its search
 * scrolls exactly like the incremental crawler's, but keeps a fresh
 * fingerprint set per call, fetches every candidate without a URL
 * pre-filter, and lets a failed fetch fall through to the outer handler
 * uncounted. It reports its counts instead of returning them.
 */
module GoogleImageCrawler {
  import opened Options
  import opened Fingerprints
  import opened ScrollExpander
  import opened Candidates

  datatype Outcome =
    | StillScrolling   // the page kept changing height: the call never returns
    | NoImages         // no thumbnails: returns before creating directories or counters
    | Reported(downloaded: nat, skipped: nat, writes: seq<FileWrite>)

  /** `google_image_search` of the single-query crawler. */
  method GoogleImageSearch(heights: seq<Round>, tags: seq<ImgTag>, ios: seq<CandidateIo>,
                           hash: Bytes -> Option<Fingerprint>)
    returns (outcome: Outcome)
    requires |ios| == |ExtractCandidates(tags)|
    ensures outcome.StillScrolling? <==> !EventuallyStops(heights)
    ensures outcome.NoImages? <==> EventuallyStops(heights) && ExtractCandidates(tags) == []
    ensures outcome.Reported? ==>
              var r := Session(CrawlerPolicy, Zip(ExtractCandidates(tags), ios), Fresh({}), hash);
              outcome.downloaded == r.downloaded && outcome.skipped == r.skipped && outcome.writes == r.writes
  {
    var converged, rounds, failures, scrollAttempts := ScrollToBottom(heights);
    if !converged {
      return StillScrolling;
    }
    var candidates := ExtractCandidates(tags);
    if |candidates| == 0 {
      return NoImages;
    }
    var downloaded, skipped := 0, 0;
    var imageHashes: set<Fingerprint> := {};
    var writes: seq<FileWrite> := [];
    ghost var items := Zip(candidates, ios);
    for idx := 0 to |candidates|
      invariant Tally(imageHashes, downloaded, skipped, writes)
                == Session(CrawlerPolicy, items[..idx], Fresh({}), hash)
    {
      ghost var t := Tally(imageHashes, downloaded, skipped, writes);
      SessionSnoc(CrawlerPolicy, items, idx, Fresh({}), hash);
      assert items[idx] == Item(candidates[idx], ios[idx]);
      // A failed fetch or decoding reaches the outer handler: neither counter moves.
      if ios[idx].fetch.Fetched? {
        var imageData := ios[idx].fetch.data;
        var decoded := hash(imageData);
        if decoded.Some? {
          var imgHash := decoded.value;
          assert FateOf(CrawlerPolicy, items[idx], hash) == Decoded(imgHash, imageData);
          if imgHash in imageHashes {
            skipped := skipped + 1;
          } else {
            imageHashes := imageHashes + {imgHash};
            var w := ios[idx].write;
            if !w.ImageWriteFailed? {
              writes := writes + [ImageFile(imgHash, imageData)];
              if w.BothWritten? {
                writes := writes + [TitleFile(imgHash, Caption(candidates[idx].title))];
                downloaded := downloaded + 1;
              }
            }
          }
        } else {
          assert FateOf(CrawlerPolicy, items[idx], hash) == DecodeFailure;
        }
      } else {
        assert FateOf(CrawlerPolicy, items[idx], hash) == FetchFailure;
      }
      assert Tally(imageHashes, downloaded, skipped, writes) == Step(CrawlerPolicy, t, items[idx], hash);
    }
    assert items[..|candidates|] == items;
    outcome := Reported(downloaded, skipped, writes);
  }

  lemma {:induction false} NoEarlySkips(items: seq<Item>, hash: Bytes -> Option<Fingerprint>)
    ensures EarlySkips(CrawlerPolicy, items, hash) == 0
  {
    if items != [] {
      NoEarlySkips(items[..|items| - 1], hash);
    }
  }

  /**
   * Within one call of this crawler, the only skips are duplicates: the
   * candidates that decoded minus the distinct fingerprints they brought.
   * Each fingerprint is saved at most once per call, and no file is written
   * twice; nothing carries over from an earlier call.
   */
  lemma CrawlerSessionFacts(items: seq<Item>, hash: Bytes -> Option<Fingerprint>)
    ensures var r := Session(CrawlerPolicy, items, Fresh({}), hash);
            && r.hashes == DecodedHashes(CrawlerPolicy, items, hash)
            && r.skipped == DecodedCount(CrawlerPolicy, items, hash) - |r.hashes|
            && r.downloaded <= |r.hashes|
            && Accounts({}, r)
  {
    var r := Session(CrawlerPolicy, items, Fresh({}), hash);
    SessionHashes(CrawlerPolicy, items, Fresh({}), hash);
    SessionCounts(CrawlerPolicy, items, Fresh({}), hash);
    NoEarlySkips(items, hash);
    assert r.hashes - {} == r.hashes;
    SessionKeepsAccounts({}, CrawlerPolicy, items, Fresh({}), hash);
  }
}
