/** The manga records of the domain layer and the list helpers that search
    them, add to them and remove from them (src/domain/model.py). */
module Model {
  import opened Wrappers
  import opened Seqs
  import opened Lists
  import opened Dates

  /** One chapter of a manga. `number` is text: some chapters are not
      numbered ("Extra"). `manga` is the name of the manga it belongs to. */
  datatype MangaChapter = MangaChapter(
    name: string, number: string, url: string, date: DateTime, manga: string)

  /** A tracked manga and the chapter currently considered its latest. */
  datatype Manga = Manga(name: string, link: string, lastChapter: Option<MangaChapter>)

  /** One scraped episode record: `{"episode": ..., "url": ...}`. */
  datatype Episode = Episode(episode: string, url: string)

  /** The scraped mapping from manga name to its episode records, in the
      mapping's insertion order. */
  type Extracted = seq<(string, seq<Episode>)>

  function MangaName(m: Manga): string { m.name }
  function MangaLink(m: Manga): string { m.link }
  /** What two chapters are compared on when looking for a duplicate. */
  function NameAndNumber(c: MangaChapter): (string, string) { (c.name, c.number) }

  // ---------------------------------------------------------------------
  // Reference definitions

  /** The first manga called `name`, or None. */
  function FindMangaByName(mangas: seq<Manga>, name: string): (r: Option<Manga>)
    ensures r.Some? ==> r.value in mangas && r.value.name == name
    ensures r.None? <==> forall m :: m in mangas ==> m.name != name
  {
    match FirstIndex(mangas, MangaName, name)
    case Some(i) => Some(mangas[i])
    case None => None
  }

  /** The first manga whose link is `link`, or None. */
  function FindMangaByLink(mangas: seq<Manga>, link: string): (r: Option<Manga>)
    ensures r.Some? ==> r.value in mangas && r.value.link == link
    ensures r.None? <==> forall m :: m in mangas ==> m.link != link
  {
    match FirstIndex(mangas, MangaLink, link)
    case Some(i) => Some(mangas[i])
    case None => None
  }

  /** Whether a chapter with the same name and number is in the list; the
      url, date and manga of the chapters play no part. */
  function ChapterListed(chapters: seq<MangaChapter>, chapter: MangaChapter): (r: bool)
    ensures r <==> exists i :: (0 <= i < |chapters|
      && chapters[i].name == chapter.name && chapters[i].number == chapter.number)
  {
    FirstIndex(chapters, NameAndNumber, NameAndNumber(chapter)).Some?
  }

  /** The chapter records built from one manga's episodes. */
  function EpisodeChapters(manga: string, episodes: seq<Episode>, now: DateTime): (r: seq<MangaChapter>)
    ensures |r| == |episodes|
    ensures forall i :: 0 <= i < |r| ==>
      r[i] == MangaChapter(episodes[i].episode, episodes[i].episode, episodes[i].url, now, manga)
  {
    seq(|episodes|, i requires 0 <= i < |episodes| =>
      MangaChapter(episodes[i].episode, episodes[i].episode, episodes[i].url, now, manga))
  }

  /** The chapter list `dict_to_model` builds: mapping order, then list
      order within each manga. */
  function ChaptersOf(data: Extracted, now: DateTime): seq<MangaChapter> {
    if data == [] then []
    else
      var n := |data| - 1;
      ChaptersOf(data[..n], now) + EpisodeChapters(data[n].0, data[n].1, now)
  }

  function EpisodeCount(data: Extracted): nat {
    if data == [] then 0 else EpisodeCount(data[..|data| - 1]) + |data[|data| - 1].1|
  }

  // ---------------------------------------------------------------------
  // Searches

  /** `search_manga_by_name`. */
  method SearchMangaByName(mangas: seq<Manga>, name: string) returns (item: Option<Manga>)
    ensures item == FindMangaByName(mangas, name)
  {
    var i := 0;
    while i < |mangas|
      invariant i <= |mangas|
      invariant forall j :: 0 <= j < i ==> mangas[j].name != name
    {
      if mangas[i].name == name {
        return Some(mangas[i]);
      }
      i := i + 1;
    }
    return None;
  }

  /** `search_manga_by_link`. */
  method SearchMangaByLink(mangas: seq<Manga>, link: string) returns (item: Option<Manga>)
    ensures item == FindMangaByLink(mangas, link)
  {
    var i := 0;
    while i < |mangas|
      invariant i <= |mangas|
      invariant forall j :: 0 <= j < i ==> mangas[j].link != link
    {
      if mangas[i].link == link {
        return Some(mangas[i]);
      }
      i := i + 1;
    }
    return None;
  }

  /** `search_chapter_in_list`. */
  method SearchChapterInList(chapters: seq<MangaChapter>, chapter: MangaChapter) returns (found: bool)
    ensures found == ChapterListed(chapters, chapter)
  {
    var i := 0;
    while i < |chapters|
      invariant i <= |chapters|
      invariant forall j :: 0 <= j < i ==> NameAndNumber(chapters[j]) != NameAndNumber(chapter)
    {
      if chapters[i].name == chapter.name && chapters[i].number == chapter.number {
        return true;
      }
      i := i + 1;
    }
    return false;
  }

  // ---------------------------------------------------------------------
  // In-place edits

  /** `add_manga`: appends the manga when it is given, has a name and a
      link, and no manga of that name is listed; a None list is refused. */
  method AddManga(mangas: ListRef?<Manga>, manga: Option<Manga>) returns (created: bool)
    modifies mangas
    ensures created <==> (mangas != null && manga.Some? && manga.value.name != ""
      && manga.value.link != "" && FindMangaByName(old(mangas.items), manga.value.name).None?)
    ensures mangas != null ==>
      mangas.items == if created then old(mangas.items) + [manga.value] else old(mangas.items)
  {
    if manga.None? || manga.value.name == "" || manga.value.link == "" {
      return false;
    }
    if mangas == null {
      // iterating over None raises TypeError, caught by the handler
      return false;
    }
    var existing := SearchMangaByName(mangas.items, manga.value.name);
    if existing.Some? {
      return false;
    }
    mangas.Append(manga.value);
    return true;
  }

  /** `del_manga`: removes the first manga with the given name. */
  method DelManga(mangas: ListRef?<Manga>, manga: Option<Manga>) returns (deleted: bool)
    modifies mangas
    ensures deleted <==> (mangas != null && manga.Some? && manga.value.name != ""
      && FindMangaByName(old(mangas.items), manga.value.name).Some?)
    ensures mangas != null && !deleted ==> mangas.items == old(mangas.items)
    ensures deleted ==>
      var i := FirstIndex(old(mangas.items), MangaName, manga.value.name).value;
      mangas.items == old(mangas.items)[..i] + old(mangas.items)[i + 1..]
  {
    if manga.None? || manga.value.name == "" {
      return false;
    }
    if mangas == null {
      return false;
    }
    var target := SearchMangaByName(mangas.items, manga.value.name);
    if target.None? {
      return false;
    }
    FirstKeyIsFirstEqual(mangas.items, MangaName, manga.value.name,
                         FirstIndex(mangas.items, MangaName, manga.value.name).value);
    mangas.Remove(target.value);
    return true;
  }

  // ---------------------------------------------------------------------
  // Conversion of scraped data

  /** `dict_to_model`: one chapter per episode record, named and numbered
      by the record's episode, dated `now` (the wall clock at conversion). */
  method DictToModel(data: Extracted, now: DateTime) returns (chapters: seq<MangaChapter>)
    ensures chapters == ChaptersOf(data, now)
  {
    chapters := [];
    var i := 0;
    while i < |data|
      invariant i <= |data|
      invariant chapters == ChaptersOf(data[..i], now)
    {
      var (manga, episodes) := data[i];
      var j := 0;
      while j < |episodes|
        invariant j <= |episodes|
        invariant chapters == ChaptersOf(data[..i], now) + EpisodeChapters(manga, episodes[..j], now)
      {
        var e := episodes[j];
        chapters := chapters + [MangaChapter(e.episode, e.episode, e.url, now, manga)];
        j := j + 1;
      }
      assert data[..i + 1][..i] == data[..i];
      assert episodes[..j] == episodes;
      i := i + 1;
    }
    assert data[..i] == data;
  }

  // ---------------------------------------------------------------------
  // Lemmas

  /** The conversion splits along the mapping: converting two halves and
      concatenating gives the conversion of the whole. */
  lemma {:induction false} ChaptersOfAppend(a: Extracted, b: Extracted, now: DateTime)
    ensures ChaptersOf(a + b, now) == ChaptersOf(a, now) + ChaptersOf(b, now)
    decreases |b|
  {
    if b != [] {
      var n := |b| - 1;
      assert (a + b)[..|a + b| - 1] == a + b[..n];
      ChaptersOfAppend(a, b[..n], now);
    } else {
      assert a + b == a;
    }
  }

  /** One chapter per episode record. */
  lemma {:induction false} ChaptersOfLength(data: Extracted, now: DateTime)
    ensures |ChaptersOf(data, now)| == EpisodeCount(data)
  {
    if data != [] {
      ChaptersOfLength(data[..|data| - 1], now);
    }
  }

  /** Every chapter comes from a record of its manga: name and number are
      the record's episode, the url is the record's, the date is `now`. */
  lemma {:induction false} ChaptersOfSound(data: Extracted, now: DateTime, c: MangaChapter)
    requires c in ChaptersOf(data, now)
    ensures c.name == c.number && c.date == now
    ensures exists i :: 0 <= i < |data| && data[i].0 == c.manga && Episode(c.name, c.url) in data[i].1
  {
    var n := |data| - 1;
    if c in ChaptersOf(data[..n], now) {
      ChaptersOfSound(data[..n], now, c);
      var i :| 0 <= i < n && data[..n][i].0 == c.manga && Episode(c.name, c.url) in data[..n][i].1;
      assert data[i] == data[..n][i];
    } else {
      var es := EpisodeChapters(data[n].0, data[n].1, now);
      var j :| 0 <= j < |es| && es[j] == c;
      assert data[n].1[j] == Episode(c.name, c.url);
    }
  }

  /** Every record yields its chapter. */
  lemma {:induction false} ChaptersOfComplete(data: Extracted, now: DateTime, i: nat, j: nat)
    requires i < |data| && j < |data[i].1|
    ensures var e := data[i].1[j];
      MangaChapter(e.episode, e.episode, e.url, now, data[i].0) in ChaptersOf(data, now)
  {
    var n := |data| - 1;
    var e := data[i].1[j];
    if i < n {
      assert data[..n][i] == data[i];
      ChaptersOfComplete(data[..n], now, i, j);
    } else {
      assert EpisodeChapters(data[n].0, data[n].1, now)[j]
        == MangaChapter(e.episode, e.episode, e.url, now, data[i].0);
    }
  }
}
