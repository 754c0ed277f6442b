/** Playlist entries as the scraper sees them: a raw item is what the HTML
    extractor found for one element carrying a `data-youtube` attribute, a
    record is the dictionary `scrape_playlist` keeps for it (scraper.py:117-142).
    The HTML parsing itself is opaque: raw items arrive already extracted, with
    their texts already stripped. */
module Records {
  import opened Wrappers

  /** One playlist element after extraction; `youtubeId` and `dataId` come
      from attribute lookups and may be missing. */
  datatype RawItem = RawItem(
    timestamp: string,
    artist: string,
    song: string,
    youtubeId: Option<string>,
    dataId: Option<string>)

  /** One kept playlist entry, with the five fields of the output table. */
  datatype Record = Record(
    timestamp: string,
    artist: string,
    song: string,
    youtubeId: Option<string>,
    dataId: Option<string>)

  /** The keep rule of the extractor: at least an artist or a song was found. */
  predicate Kept(it: RawItem) {
    it.artist != "" || it.song != ""
  }

  /** The record built from a raw item: every field copied unchanged. */
  function ToRecord(it: RawItem): (r: Record)
    ensures r.timestamp == it.timestamp && r.artist == it.artist && r.song == it.song
    ensures r.youtubeId == it.youtubeId && r.dataId == it.dataId
  {
    Record(it.timestamp, it.artist, it.song, it.youtubeId, it.dataId)
  }

  /** The records of one page, in page order: the loop of `scrape_playlist`
      that turns extracted items into result dictionaries. */
  function Extract(items: seq<RawItem>): (rs: seq<Record>)
    ensures |rs| <= |items|
    ensures forall r :: r in rs <==> exists it :: it in items && Kept(it) && ToRecord(it) == r
    ensures rs == [] <==> forall it :: it in items ==> !Kept(it)
  {
    if items == [] then []
    else
      var rest := Extract(items[1..]);
      assert forall it :: it in items[1..] ==> it in items;
      assert forall it :: it in items ==> it == items[0] || it in items[1..];
      if Kept(items[0]) then [ToRecord(items[0])] + rest else rest
  }

  /** Extraction works item by item: the records of two consecutive runs of
      items are the records of the first run followed by those of the second. */
  lemma {:induction false} ExtractAppend(a: seq<RawItem>, b: seq<RawItem>)
    ensures Extract(a + b) == Extract(a) + Extract(b)
  {
    if a == [] {
      assert a + b == b;
    } else {
      assert (a + b)[0] == a[0];
      assert (a + b)[1..] == a[1..] + b;
      ExtractAppend(a[1..], b);
    }
  }

  /** A single item yields exactly its own record when it is kept and nothing
      otherwise. */
  lemma ExtractSingle(it: RawItem)
    ensures Kept(it) ==> Extract([it]) == [ToRecord(it)]
    ensures !Kept(it) ==> Extract([it]) == []
  {
    assert [it][1..] == [];
  }
}
