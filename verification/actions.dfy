/** The polling pipeline (src/app/actions.py): ingestion of scraped
    chapters into the store, and reconciliation of every subscription with
    its manga's latest chapter.

    Both are loops over a snapshot read before the loop. Each is specified
    by a left fold over that snapshot (`RunSteps` of `Ingester`, and
    `ReconcileSteps`) so that the loop invariant is the fold over the
    prefix done so far. */
module Actions {
  import opened Wrappers
  import opened Seqs
  import opened Dates
  import opened Model
  import opened Communications
  import opened AppDatabase
  import Raw = DomainDatabase

  // ---------------------------------------------------------------------
  // Ingestion (`explore_web`, from the extracted data onward)

  /** The first step for one scraped chapter: when the manga snapshot
      lacks its manga, try to insert that manga with no url and no last
      chapter, whatever the answer. */
  function MangaAttempt(t: Raw.Tables, known: seq<Manga>, c: MangaChapter): Raw.Tables {
    if FindMangaByName(known, c.manga).None?
    then Raw.Written(t, Raw.InsertManga(c.manga, "", StoredLast(None)))
    else t
  }

  /** The second step: read the manga's stored chapters (which can raise
      and end the run) and insert the chapter unless one with its name and
      number is among them. */
  function ChapterAttempt(t: Raw.Tables, c: MangaChapter): (Outcome<Fault>, Raw.Tables) {
    match ChaptersView(Raw.ChaptersOfManga(t.chapters, c.manga))
    case Err(e) => (Fail(e), t)
    case Ok(listed) =>
      if ChapterListed(listed, c) then (Pass, t)
      else (Pass, Raw.Written(t, Raw.InsertMangaChapter(c.name, c.number, c.url, Format(c.date), c.manga)))
  }

  /** What `explore_web` does with one scraped chapter. */
  function IngestOne(t: Raw.Tables, known: seq<Manga>, c: MangaChapter): (Outcome<Fault>, Raw.Tables) {
    ChapterAttempt(MangaAttempt(t, known, c), c)
  }

  /** The loop body, as a step of the run. */
  function Ingester(known: seq<Manga>): (Raw.Tables, MangaChapter) -> (Outcome<Fault>, Raw.Tables) {
    (t: Raw.Tables, c: MangaChapter) => IngestOne(t, known, c)
  }

  /** The whole ingestion: nothing at all without chapters; otherwise the
      mangas are read once (which can raise) and the chapters handled
      against that snapshot. */
  function Explored(t: Raw.Tables, cs: seq<MangaChapter>): (Outcome<Fault>, Raw.Tables) {
    if cs == [] then (Pass, t)
    else
      match MangasView(t.chapters, t.mangas)
      case Err(e) => (Fail(e), t)
      case Ok(known) => RunSteps(t, cs, Ingester(known))
  }

  /** `explore_web` after the page is downloaded and parsed into `data`;
      `now` is the clock reading `dict_to_model` stamps the chapters with. */
  method ExploreWeb(db: Database, data: Extracted, now: DateTime) returns (r: Outcome<Fault>)
    requires db.Valid()
    modifies db.raw
    ensures db.Valid()
    ensures old(db.State()).Err? ==> (
      && r == (if ChaptersOf(data, now) == [] then Pass else Fail(old(db.State()).error))
      && (db.raw != null ==> db.raw.conn == old(db.raw.conn) && db.raw.tables == old(db.raw.tables)))
    ensures old(db.State()).Ok? ==>
      var e := Explored(old(db.State()).value, ChaptersOf(data, now));
      r == e.0 && db.State() == Ok(e.1)
  {
    var chapters := DictToModel(data, now);
    if |chapters| == 0 {
      return Pass;
    }
    var known := db.ReadMangas();
    if known.Err? {
      return Fail(known.error);
    }
    r := IngestAll(db, known.value, chapters);
  }

  /** The ingestion loop over the chapters, against the manga snapshot. */
  method IngestAll(db: Database, known: seq<Manga>, chapters: seq<MangaChapter>) returns (r: Outcome<Fault>)
    requires db.Valid() && db.State().Ok?
    modifies db.raw
    ensures db.Valid() && db.raw != null
    ensures var e := RunSteps(old(db.State()).value, chapters, Ingester(known));
      r == e.0 && db.State() == Ok(e.1)
  {
    ghost var t := db.State().value;
    var i := 0;
    while i < |chapters|
      invariant i <= |chapters|
      invariant db.Valid() && db.raw != null
      invariant RunSteps(t, chapters[..i], Ingester(known)).0 == Pass
      invariant db.State() == Ok(RunSteps(t, chapters[..i], Ingester(known)).1)
    {
      assert chapters[..i + 1][..i] == chapters[..i];
      r := IngestChapter(db, known, chapters[i]);
      if r.Fail? {
        RunStepsStopsAtFail(t, chapters, Ingester(known), i + 1);
        return;
      }
      i := i + 1;
    }
    assert chapters[..i] == chapters;
    return Pass;
  }

  /** The body of the ingestion loop, for one chapter. */
  method IngestChapter(db: Database, known: seq<Manga>, c: MangaChapter) returns (r: Outcome<Fault>)
    requires db.Valid() && db.State().Ok?
    modifies db.raw
    ensures db.Valid() && db.raw != null
    ensures var e := IngestOne(old(db.State()).value, known, c);
      r == e.0 && db.State() == Ok(e.1)
  {
    ghost var t := db.State().value;
    var owner := SearchMangaByName(known, c.manga);
    if owner.None? {
      // on an open store a write never raises; its answer only picks a log line
      var saved := db.InsertManga(c.manga, "", None);
    }
    assert db.State() == Ok(MangaAttempt(t, known, c));
    var listed := db.ReadMangaChapterByMangaName(c.manga);
    if listed.Err? {
      return Fail(listed.error);
    }
    var found := SearchChapterInList(listed.value, c);
    if !found {
      var saved := db.InsertMangaChapter(c.name, c.number, c.url, c.date, c.manga);
    }
    return Pass;
  }

  // ---------------------------------------------------------------------
  // Reconciliation (`process_reporting`)

  /** A notification: the chapter announced and the chat it is sent to. */
  type Notice = (MangaChapter, Chat)

  /** What `process_reporting` does with one subscription, given the
      manga snapshot: nothing when the manga is unknown, has no latest
      chapter or the subscription already names it; otherwise one notice to
      that chat and `last` set to the latest chapter's name. */
  function ReconcileOne(t: Raw.Tables, known: seq<Manga>, s: Suscription): (Raw.Tables, seq<Notice>) {
    match FindMangaByName(known, s.manga.name)
    case None => (t, [])
    case Some(m) =>
      match m.lastChapter
      case None => (t, [])
      case Some(latest) =>
        if s.last == latest.name then (t, [])
        else (Raw.Written(t, Raw.UpdateSuscriptionLast(s.chat.id, s.manga.name, latest.name)), [(latest, s.chat)])
  }

  /** The subscriptions handled in order; notices are collected in order. */
  function ReconcileSteps(t: Raw.Tables, known: seq<Manga>, subs: seq<Suscription>): (Raw.Tables, seq<Notice>) {
    if subs == [] then (t, [])
    else
      var n := |subs| - 1;
      var prev := ReconcileSteps(t, known, subs[..n]);
      var one := ReconcileOne(prev.0, known, subs[n]);
      (one.0, prev.1 + one.1)
  }

  /** The whole reconciliation: the subscriptions and then the mangas are
      read (either can raise), then every subscription is handled. */
  function Reported(t: Raw.Tables): (Outcome<Fault>, Raw.Tables, seq<Notice>) {
    match SuscriptionsFrom(t, t.suscriptions)
    case Err(e) => (Fail(e), t, [])
    case Ok(subs) =>
      match MangasView(t.chapters, t.mangas)
      case Err(e) => (Fail(e), t, [])
      case Ok(known) =>
        var done := ReconcileSteps(t, known, subs);
        (Pass, done.0, done.1)
  }

  /** `process_reporting`. The notification itself is not modelled: its
      per-chat outcomes are discarded, so `sent` records what was
      announced to whom, in order. */
  method ProcessReporting(db: Database) returns (r: Outcome<Fault>, sent: seq<Notice>)
    requires db.Valid()
    modifies db.raw
    ensures db.Valid()
    ensures old(db.State()).Err? ==> (
      && r == Fail(old(db.State()).error) && sent == []
      && (db.raw != null ==> db.raw.conn == old(db.raw.conn) && db.raw.tables == old(db.raw.tables)))
    ensures old(db.State()).Ok? ==>
      var e := Reported(old(db.State()).value);
      r == e.0 && db.State() == Ok(e.1) && sent == e.2
  {
    var subs := db.ReadSuscriptions();
    if subs.Err? {
      return Fail(subs.error), [];
    }
    // cannot raise: the join has just read the same mangas
    var known := db.ReadMangas();
    assert known.Ok?;
    sent := ReconcileAll(db, known.value, subs.value);
    r := Pass;
  }

  /** The reconciliation loop over the subscriptions, against the manga
      snapshot. */
  method ReconcileAll(db: Database, known: seq<Manga>, subs: seq<Suscription>) returns (sent: seq<Notice>)
    requires db.Valid() && db.State().Ok?
    modifies db.raw
    ensures db.Valid() && db.raw != null
    ensures var e := ReconcileSteps(old(db.State()).value, known, subs);
      db.State() == Ok(e.0) && sent == e.1
  {
    ghost var t := db.State().value;
    sent := [];
    var i := 0;
    while i < |subs|
      invariant i <= |subs|
      invariant db.Valid() && db.raw != null
      invariant db.State() == Ok(ReconcileSteps(t, known, subs[..i]).0)
      invariant sent == ReconcileSteps(t, known, subs[..i]).1
    {
      assert subs[..i + 1][..i] == subs[..i];
      var notices := ReconcileSubscription(db, known, subs[i]);
      sent := sent + notices;
      i := i + 1;
    }
    assert subs[..i] == subs;
  }

  /** The body of the reconciliation loop, for one subscription. */
  method ReconcileSubscription(db: Database, known: seq<Manga>, sus: Suscription) returns (sent: seq<Notice>)
    requires db.Valid() && db.State().Ok?
    modifies db.raw
    ensures db.Valid() && db.raw != null
    ensures var e := ReconcileOne(old(db.State()).value, known, sus);
      db.State() == Ok(e.0) && sent == e.1
  {
    sent := [];
    var owner := SearchMangaByName(known, sus.manga.name);
    if owner.Some? && owner.value.lastChapter.Some? {
      var latest := owner.value.lastChapter.value;
      if sus.last != latest.name {
        sent := [(latest, sus.chat)];
        // on an open store a write never raises; its answer only picks a log line
        var saved := db.UpdateSuscriptionLast(sus.chat.id, sus.manga.name, latest.name);
      }
    }
  }

  // ---------------------------------------------------------------------
  // Ingestion: lemmas

  /** Ingestion only adds: chats and subscriptions are untouched, and the
      mangas and chapters keep their rows and gain new ones at the end. */
  predicate Grown(t: Raw.Tables, u: Raw.Tables) {
    && u.chats == t.chats && u.suscriptions == t.suscriptions
    && t.mangas <= u.mangas && t.chapters <= u.chapters
  }

  /** A scraped chapter is in the store: its manga has a row, and so has a
      chapter of that manga with its name. */
  predicate Stored(t: Raw.Tables, c: MangaChapter) {
    && Has(t.mangas, Raw.MangaKey, c.manga)
    && Has(t.chapters, Raw.ChapterKey, (c.manga, c.name))
  }

  lemma HasPrefix<T, K>(a: seq<T>, b: seq<T>, key: T -> K, k: K)
    requires a <= b && Has(a, key, k)
    ensures Has(b, key, k)
  {
    var i :| 0 <= i < |a| && key(a[i]) == k;
    assert b[i] == a[i];
  }

  lemma StoredGrows(t: Raw.Tables, u: Raw.Tables, c: MangaChapter)
    requires Grown(t, u) && Stored(t, c)
    ensures Stored(u, c)
  {
    HasPrefix(t.mangas, u.mangas, Raw.MangaKey, c.manga);
    HasPrefix(t.chapters, u.chapters, Raw.ChapterKey, (c.manga, c.name));
  }

  /** An insert attempt only appends, and afterwards its key is present
      whether it succeeded or not. */
  lemma InsertAttempt(t: Raw.Tables, s: Raw.Statement)
    requires s.InsertManga? || s.InsertMangaChapter?
    ensures Grown(t, Raw.Written(t, s)) && Raw.KeyPresent(Raw.Written(t, s), s)
  {
    if Raw.Apply(t, s).Some? {
      Raw.InsertAppendsRow(t, s);
      var u := Raw.Written(t, s);
      if s.InsertManga? {
        assert Raw.MangaKey(u.mangas[|u.mangas| - 1]) == s.name;
      } else {
        assert Raw.ChapterKey(u.chapters[|u.chapters| - 1]) == (s.manga, s.name);
      }
    }
  }

  /** The snapshot `read_mangas` returns has one manga per manga row, with
      the row's name, and each of them had its chapters read. */
  lemma KnownMangasAreRows(t: Raw.Tables, known: seq<Manga>, n: string)
    requires MangasView(t.chapters, t.mangas) == Ok(known)
    ensures FindMangaByName(known, n).Some? <==> Has(t.mangas, Raw.MangaKey, n)
    ensures Has(t.mangas, Raw.MangaKey, n) ==> ChaptersView(Raw.ChaptersOfManga(t.chapters, n)).Ok?
  {
    var f := MangaReader(t.chapters);
    MapResultOk(t.mangas, f, known);
    if Has(t.mangas, Raw.MangaKey, n) {
      var i :| 0 <= i < |t.mangas| && Raw.MangaKey(t.mangas[i]) == n;
      assert f(t.mangas[i]) == Ok(known[i]);
      assert known[i] in known && known[i].name == n;
    }
    if FindMangaByName(known, n).Some? {
      var i :| 0 <= i < |known| && known[i] == FindMangaByName(known, n).value;
      assert f(t.mangas[i]) == Ok(known[i]);
    }
  }

  lemma MangaAttemptGrows(t: Raw.Tables, known: seq<Manga>, c: MangaChapter)
    ensures Grown(t, MangaAttempt(t, known, c))
    ensures FindMangaByName(known, c.manga).None? ==> Has(MangaAttempt(t, known, c).mangas, Raw.MangaKey, c.manga)
  {
    if FindMangaByName(known, c.manga).None? {
      InsertAttempt(t, Raw.InsertManga(c.manga, "", StoredLast(None)));
    }
  }

  lemma ChapterAttemptGrows(t: Raw.Tables, c: MangaChapter)
    ensures Grown(t, ChapterAttempt(t, c).1)
  {
    InsertAttempt(t, Raw.InsertMangaChapter(c.name, c.number, c.url, Format(c.date), c.manga));
  }

  lemma {:induction false} IngestStepsGrows(t: Raw.Tables, known: seq<Manga>, cs: seq<MangaChapter>)
    ensures Grown(t, RunSteps(t, cs, Ingester(known)).1)
  {
    if cs != [] {
      var n := |cs| - 1;
      var prev := RunSteps(t, cs[..n], Ingester(known)).1;
      IngestStepsGrows(t, known, cs[..n]);
      MangaAttemptGrows(prev, known, cs[n]);
      ChapterAttemptGrows(MangaAttempt(prev, known, cs[n]), cs[n]);
    }
  }

  /** `explore_web` never deletes or rewrites a row: it only appends mangas
      and chapters, whatever its outcome. */
  lemma ExploreOnlyAppends(t: Raw.Tables, cs: seq<MangaChapter>)
    ensures Grown(t, Explored(t, cs).1)
  {
    if cs != [] && MangasView(t.chapters, t.mangas).Ok? {
      IngestStepsGrows(t, MangasView(t.chapters, t.mangas).value, cs);
    }
  }

  /** When the chapter step does not raise, the chapter is there
      afterwards: found by name and number, inserted, or refused because a
      chapter of that manga with that name is already stored. */
  lemma ChapterAttemptStores(t: Raw.Tables, c: MangaChapter)
    requires Has(t.mangas, Raw.MangaKey, c.manga) && ChapterAttempt(t, c).0 == Pass
    ensures Stored(ChapterAttempt(t, c).1, c)
  {
    var rows := Raw.ChaptersOfManga(t.chapters, c.manga);
    var listed := ChaptersView(rows).value;
    if ChapterListed(listed, c) {
      ListedIsStored(t.chapters, listed, c);
    } else {
      var s := Raw.InsertMangaChapter(c.name, c.number, c.url, Format(c.date), c.manga);
      InsertAttempt(t, s);
      HasPrefix(t.mangas, Raw.Written(t, s).mangas, Raw.MangaKey, c.manga);
    }
  }

  /** A chapter found by name and number among a manga's chapters as read
      back has a row with that manga and name. */
  lemma ListedIsStored(chapters: seq<Raw.ChapterRow>, listed: seq<MangaChapter>, c: MangaChapter)
    requires ChaptersView(Raw.ChaptersOfManga(chapters, c.manga)) == Ok(listed)
    requires ChapterListed(listed, c)
    ensures Has(chapters, Raw.ChapterKey, (c.manga, c.name))
  {
    var rows := Raw.ChaptersOfManga(chapters, c.manga);
    Raw.ChaptersOfMangaIsOrdered(chapters, c.manga);
    var j :| 0 <= j < |listed| && listed[j].name == c.name && listed[j].number == c.number;
    assert ChapterOfRow(rows[j]) == Ok(listed[j]);
    assert rows[j] in rows;
    var k :| 0 <= k < |chapters| && chapters[k] == rows[j];
    assert Raw.ChapterKey(chapters[k]) == (c.manga, c.name);
  }

  lemma {:induction false} IngestStepsStores(t: Raw.Tables, known: seq<Manga>, cs: seq<MangaChapter>)
    requires MangasView(t.chapters, t.mangas) == Ok(known)
    requires RunSteps(t, cs, Ingester(known)).0 == Pass
    ensures forall c :: c in cs ==> Stored(RunSteps(t, cs, Ingester(known)).1, c)
  {
    if cs != [] {
      var n := |cs| - 1;
      var c := cs[n];
      var prev := RunSteps(t, cs[..n], Ingester(known)).1;
      var mid := MangaAttempt(prev, known, c);
      var u := RunSteps(t, cs, Ingester(known)).1;
      assert u == ChapterAttempt(mid, c).1;
      IngestStepsStores(t, known, cs[..n]);
      IngestStepsGrows(t, known, cs[..n]);
      MangaAttemptGrows(prev, known, c);
      ChapterAttemptGrows(mid, c);
      KnownMangasAreRows(t, known, c.manga);
      if FindMangaByName(known, c.manga).Some? {
        HasPrefix(t.mangas, prev.mangas, Raw.MangaKey, c.manga);
        HasPrefix(prev.mangas, mid.mangas, Raw.MangaKey, c.manga);
      }
      ChapterAttemptStores(mid, c);
      forall x | x in cs
        ensures Stored(u, x)
      {
        if x != c {
          assert x in cs[..n];
          StoredGrows(prev, mid, x);
          StoredGrows(mid, u, x);
        }
      }
    }
  }

  /** After a run that does not raise, every scraped episode is in the
      store: its manga has a row, and so has a chapter of that manga named
      after the episode. */
  lemma ExploreStoresEveryEpisode(t: Raw.Tables, data: Extracted, now: DateTime, i: nat, j: nat)
    requires Explored(t, ChaptersOf(data, now)).0 == Pass
    requires i < |data| && j < |data[i].1|
    ensures var u := Explored(t, ChaptersOf(data, now)).1;
      && Has(u.mangas, Raw.MangaKey, data[i].0)
      && Has(u.chapters, Raw.ChapterKey, (data[i].0, data[i].1[j].episode))
  {
    var e := data[i].1[j];
    ChaptersOfComplete(data, now, i, j);
    ExploredStoresAll(t, ChaptersOf(data, now));
    assert Stored(Explored(t, ChaptersOf(data, now)).1, MangaChapter(e.episode, e.episode, e.url, now, data[i].0));
  }

  lemma ExploredStoresAll(t: Raw.Tables, cs: seq<MangaChapter>)
    requires Explored(t, cs).0 == Pass
    ensures forall c :: c in cs ==> Stored(Explored(t, cs).1, c)
  {
    if cs != [] {
      IngestStepsStores(t, MangasView(t.chapters, t.mangas).value, cs);
    }
  }

  /** On a store that already holds a chapter, handling it again writes
      nothing. */
  lemma IngestOneQuiet(u: Raw.Tables, known: seq<Manga>, c: MangaChapter)
    requires MangasView(u.chapters, u.mangas) == Ok(known) && Stored(u, c)
    ensures IngestOne(u, known, c) == (Pass, u)
  {
    KnownMangasAreRows(u, known, c.manga);
    assert MangaAttempt(u, known, c) == u;
  }

  lemma {:induction false} IngestStepsQuiet(u: Raw.Tables, known: seq<Manga>, cs: seq<MangaChapter>)
    requires MangasView(u.chapters, u.mangas) == Ok(known)
    requires forall c :: c in cs ==> Stored(u, c)
    ensures RunSteps(u, cs, Ingester(known)) == (Pass, u)
  {
    if cs != [] {
      var n := |cs| - 1;
      assert forall c :: c in cs[..n] ==> c in cs;
      IngestStepsQuiet(u, known, cs[..n]);
      IngestOneQuiet(u, known, cs[n]);
    }
  }

  /** Running ingestion again on the same scraped data, whatever the
      clock now reads, inserts nothing: every chapter is found by name and
      number, or its insert is refused by the key. The stored dates must
      still read back, as the first run's mangas read did. */
  lemma ExploreTwiceWritesNothing(t: Raw.Tables, data: Extracted, now: DateTime, later: DateTime)
    requires Explored(t, ChaptersOf(data, now)).0 == Pass
    requires var u := Explored(t, ChaptersOf(data, now)).1;
      MangasView(u.chapters, u.mangas).Ok?
    ensures var u := Explored(t, ChaptersOf(data, now)).1;
      Explored(u, ChaptersOf(data, later)) == (Pass, u)
  {
    var u := Explored(t, ChaptersOf(data, now)).1;
    forall c | c in ChaptersOf(data, later)
      ensures Stored(u, c)
    {
      ChaptersOfSound(data, later, c);
      var i :| 0 <= i < |data| && data[i].0 == c.manga && Episode(c.name, c.url) in data[i].1;
      var j :| 0 <= j < |data[i].1| && data[i].1[j] == Episode(c.name, c.url);
      ExploreStoresEveryEpisode(t, data, now, i, j);
    }
    if ChaptersOf(data, later) != [] {
      IngestStepsQuiet(u, MangasView(u.chapters, u.mangas).value, ChaptersOf(data, later));
    }
  }

  // ---------------------------------------------------------------------
  // Reconciliation: lemmas

  /** Two lists of subscription rows link the same chats to the same
      mangas, row by row. */
  predicate SameLinks(a: seq<Raw.SuscriptionRow>, b: seq<Raw.SuscriptionRow>) {
    && |a| == |b|
    && forall i :: 0 <= i < |a| ==> Raw.SuscriptionKey(a[i]) == Raw.SuscriptionKey(b[i])
  }

  lemma SameLinksKeepUnique(a: seq<Raw.SuscriptionRow>, b: seq<Raw.SuscriptionRow>)
    requires SameLinks(a, b) && UniqueKeys(b, Raw.SuscriptionKey)
    ensures UniqueKeys(a, Raw.SuscriptionKey)
  {
    forall i, j | 0 <= i < j < |a|
      ensures Raw.SuscriptionKey(a[i]) != Raw.SuscriptionKey(a[j])
    {
      assert Raw.SuscriptionKey(b[i]) != Raw.SuscriptionKey(b[j]);
    }
  }

  lemma UpdateLastKeepsLinks(t: Raw.Tables, chat: int, manga: string, last: string)
    ensures var u := Raw.Written(t, Raw.UpdateSuscriptionLast(chat, manga, last));
      && u.chats == t.chats && u.mangas == t.mangas && u.chapters == t.chapters
      && SameLinks(u.suscriptions, t.suscriptions)
  {
    var s := Raw.UpdateSuscriptionLast(chat, manga, last);
    if Raw.Apply(t, s).Some? {
      Raw.ApplyUpdate(t, s);
    }
  }

  /** Reconciliation writes only the `last` column: every other table and
      every subscription's chat and manga stay as they were. */
  lemma {:induction false} ReconcileChangesOnlyLast(t: Raw.Tables, known: seq<Manga>, subs: seq<Suscription>)
    ensures var u := ReconcileSteps(t, known, subs).0;
      && u.chats == t.chats && u.mangas == t.mangas && u.chapters == t.chapters
      && SameLinks(u.suscriptions, t.suscriptions)
  {
    if subs != [] {
      var n := |subs| - 1;
      var prev := ReconcileSteps(t, known, subs[..n]).0;
      ReconcileChangesOnlyLast(t, known, subs[..n]);
      var s := subs[n];
      match FindMangaByName(known, s.manga.name) {
        case None =>
        case Some(m) =>
          if m.lastChapter.Some? {
            UpdateLastKeepsLinks(prev, s.chat.id, s.manga.name, m.lastChapter.value.name);
          }
      }
    }
  }

  /** A subscription row brought up to date: `last` becomes the name of its
      manga's latest chapter, when the manga is known and has one. */
  function Advance(known: seq<Manga>, row: Raw.SuscriptionRow): Raw.SuscriptionRow {
    match FindMangaByName(known, row.manga)
    case None => row
    case Some(m) => if m.lastChapter.Some? then row.(last := m.lastChapter.value.name) else row
  }

  /** The rows with the first `k` brought up to date. */
  function AdvancedUpTo(known: seq<Manga>, rows: seq<Raw.SuscriptionRow>, k: nat): (r: seq<Raw.SuscriptionRow>)
    ensures |r| == |rows|
    ensures forall i :: 0 <= i < |rows| ==> r[i] == if i < k then Advance(known, rows[i]) else rows[i]
  {
    seq(|rows|, i requires 0 <= i < |rows| => if i < k then Advance(known, rows[i]) else rows[i])
  }

  /** The joined subscriptions are the rows, one for one. */
  predicate Aligned(subs: seq<Suscription>, rows: seq<Raw.SuscriptionRow>) {
    && |subs| == |rows|
    && forall i :: 0 <= i < |rows| ==>
         subs[i].chat.id == rows[i].chat && subs[i].manga.name == rows[i].manga && subs[i].last == rows[i].last
  }

  /** Handling the subscription joined from row `n` brings that row, and
      only it, up to date. */
  lemma ReconcileOneAdvances(t: Raw.Tables, known: seq<Manga>, s: Suscription, n: nat)
    requires t.KeysUnique() && n < |t.suscriptions|
    requires Raw.SuscriptionKey(t.suscriptions[n]) == (s.chat.id, s.manga.name)
    requires t.suscriptions[n].last == s.last
    ensures ReconcileOne(t, known, s).0 == t.(suscriptions := t.suscriptions[n := Advance(known, t.suscriptions[n])])
  {
    var rows := t.suscriptions;
    var row := rows[n];
    var owner := FindMangaByName(known, s.manga.name);
    if owner.None? || owner.value.lastChapter.None? || s.last == owner.value.lastChapter.value.name {
      assert Advance(known, row) == row;
      assert rows[n := row] == rows;
    } else {
      var last := owner.value.lastChapter.value.name;
      Raw.UpdateSuscriptionLastChangesOnlyLast(t, s.chat.id, s.manga.name, last);
      assert FirstIndex(rows, Raw.SuscriptionKey, (s.chat.id, s.manga.name)) == Some(n);
    }
  }

  lemma {:induction false} ReconcileAdvancesPrefix(t: Raw.Tables, known: seq<Manga>, subs: seq<Suscription>, k: nat)
    requires t.KeysUnique() && Aligned(subs, t.suscriptions) && k <= |subs|
    ensures ReconcileSteps(t, known, subs[..k]).0 == t.(suscriptions := AdvancedUpTo(known, t.suscriptions, k))
  {
    var rows := t.suscriptions;
    if k == 0 {
      assert AdvancedUpTo(known, rows, 0) == rows;
    } else {
      var n := k - 1;
      ReconcileAdvancesPrefix(t, known, subs, n);
      assert subs[..k][..n] == subs[..n];
      var p := AdvancedUpTo(known, rows, n);
      assert SameLinks(p, rows);
      SameLinksKeepUnique(p, rows);
      ReconcileOneAdvances(t.(suscriptions := p), known, subs[n], n);
      assert AdvancedUpTo(known, rows, k) == p[n := Advance(known, p[n])];
    }
  }

  /** `process_reporting` on a store whose subscriptions read back brings
      every subscription up to date: each row's `last` becomes the name of
      its manga's latest chapter (when there is one), and nothing else in
      the store changes. */
  lemma ReportingAdvancesEverySubscription(t: Raw.Tables)
    requires t.KeysUnique() && SuscriptionsFrom(t, t.suscriptions).Ok?
    ensures var known := MangasView(t.chapters, t.mangas).value;
      && Reported(t).0 == Pass
      && Reported(t).1 == t.(suscriptions := AdvancedUpTo(known, t.suscriptions, |t.suscriptions|))
  {
    var known := MangasView(t.chapters, t.mangas).value;
    var subs := SuscriptionsFrom(t, t.suscriptions).value;
    JoinSucceedsIffReferencesResolve(ChatsView(Raw.ChatsById(t.chats)), known, t.suscriptions);
    ReconcileAdvancesPrefix(t, known, subs, |subs|);
    assert subs[..|subs|] == subs;
  }

  /** A subscription whose `last` already names its manga's latest chapter
      (or whose manga is unknown or has none) needs nothing. */
  predicate Settled(known: seq<Manga>, s: Suscription) {
    match FindMangaByName(known, s.manga.name)
    case None => true
    case Some(m) => m.lastChapter.Some? ==> s.last == m.lastChapter.value.name
  }

  lemma {:induction false} SettledIsQuiet(t: Raw.Tables, known: seq<Manga>, subs: seq<Suscription>)
    requires forall i :: 0 <= i < |subs| ==> Settled(known, subs[i])
    ensures ReconcileSteps(t, known, subs).0 == t && ReconcileSteps(t, known, subs).1 == []
  {
    if subs != [] {
      var n := |subs| - 1;
      assert forall i :: 0 <= i < n ==> subs[..n][i] == subs[i];
      SettledIsQuiet(t, known, subs[..n]);
      assert Settled(known, subs[n]);
      var one := ReconcileOne(t, known, subs[n]);
      assert one.0 == t && one.1 == [];
    }
  }

  /** Rows brought up to date join to settled subscriptions. */
  lemma AdvancedRowsAreSettled(chats: seq<Chat>, known: seq<Manga>, rows: seq<Raw.SuscriptionRow>)
    requires SuscriptionsView(chats, known, rows).Ok?
    ensures var a := AdvancedUpTo(known, rows, |rows|);
      && SuscriptionsView(chats, known, a).Ok?
      && |SuscriptionsView(chats, known, a).value| == |a|
      && forall i :: 0 <= i < |a| ==> Settled(known, SuscriptionsView(chats, known, a).value[i])
  {
    var a := AdvancedUpTo(known, rows, |rows|);
    JoinSucceedsIffReferencesResolve(chats, known, rows);
    JoinSucceedsIffReferencesResolve(chats, known, a);
  }

  /** With no chapter added in between, a second `process_reporting` sends
      nothing and writes nothing. */
  lemma SecondReportingIsQuiet(t: Raw.Tables)
    requires t.KeysUnique() && SuscriptionsFrom(t, t.suscriptions).Ok?
    ensures var u := Reported(t).1;
      Reported(u) == (Pass, u, [])
  {
    var known := MangasView(t.chapters, t.mangas).value;
    ReportingAdvancesEverySubscription(t);
    var u := Reported(t).1;
    AdvancedRowsAreSettled(ChatsView(Raw.ChatsById(t.chats)), known, t.suscriptions);
    assert MangasView(u.chapters, u.mangas) == Ok(known);
    var subs := SuscriptionsView(ChatsView(Raw.ChatsById(u.chats)), known, u.suscriptions).value;
    assert SuscriptionsFrom(u, u.suscriptions) == Ok(subs);
    SettledIsQuiet(u, known, subs);
  }
}
