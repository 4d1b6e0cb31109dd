/** The typed store (src/app/database.py): the domain records read from
    and written to the primitive store.

    Reads convert rows to records: chapter dates are parsed, each manga's
    latest chapter is derived from its chapter rows (the stored
    `last_chapter` column is never read back), and subscriptions are joined
    to their chat and manga in application code. Writes hand their
    parameters to the primitive store and return its answer. */
module AppDatabase {
  import opened Wrappers
  import opened Seqs
  import opened Dates
  import opened Model
  import opened Communications
  import opened Order
  import Raw = DomainDatabase

  type Fault = Raw.Fault

  // ---------------------------------------------------------------------
  // Views: what the read methods return, as functions of the rows

  function ChatOfRow(r: Raw.ChatRow): Chat { Chat(r.id, r.name) }

  /** `read_chats`: one chat per row, in the order the rows are read. */
  function ChatsView(rows: seq<Raw.ChatRow>): (chats: seq<Chat>)
    ensures |chats| == |rows|
    ensures forall i :: 0 <= i < |rows| ==> chats[i].id == rows[i].id && chats[i].name == rows[i].name
  {
    seq(|rows|, i requires 0 <= i < |rows| => ChatOfRow(rows[i]))
  }

  /** One chapter row as a record; the date column must read as a
      datetime. */
  function ChapterOfRow(r: Raw.ChapterRow): (c: Result<MangaChapter, Fault>)
    ensures c.Ok? <==> Parse(r.date).Some?
    ensures c.Err? ==> c.error == Raw.MalformedDate
    ensures c.Ok? ==> && c.value.name == r.name && c.value.number == r.number
                      && c.value.url == r.url && c.value.manga == r.manga
                      && c.value.date.microsecond == 0 && Format(c.value.date) == r.date
  {
    match Parse(r.date)
    case None => Err(Raw.MalformedDate)
    case Some(d) =>
      ParseFormat(r.date, d);
      Ok(MangaChapter(r.name, r.number, r.url, d, r.manga))
  }

  /** The chapter rows as records, failing on the first malformed date. */
  function ChaptersView(rows: seq<Raw.ChapterRow>): (r: Result<seq<MangaChapter>, Fault>)
    ensures r.Ok? <==> forall i :: 0 <= i < |rows| ==> Parse(rows[i].date).Some?
    ensures r.Ok? ==> |r.value| == |rows| && forall i :: 0 <= i < |rows| ==> ChapterOfRow(rows[i]) == Ok(r.value[i])
  {
    var r := MapResult(rows, ChapterOfRow);
    if r.Ok? then
      MapResultOk(rows, ChapterOfRow, r.value);
      r
    else
      if forall i :: 0 <= i < |rows| ==> Parse(rows[i].date).Some? then
        MapResultAllOk(rows, ChapterOfRow);
        r
      else r
  }

  lemma ChaptersViewIsMap(rows: seq<Raw.ChapterRow>)
    ensures ChaptersView(rows) == MapResult(rows, ChapterOfRow)
  {
  }

  /** The chapter `read_mangas` keeps as latest: scanning in the order the
      chapters are read, a chapter replaces the current one when there is
      none yet or when it is strictly later (see `LatestIsFirstOfLatestDate`
      and `LatestIsSmallestNameOfLatestDate`). */
  function LatestChapter(cs: seq<MangaChapter>): (r: Option<MangaChapter>)
    ensures r.None? <==> cs == []
    ensures r.Some? ==> r.value in cs
  {
    if cs == [] then None
    else
      var n := |cs| - 1;
      var latest := LatestChapter(cs[..n]);
      assert latest.Some? ==> latest.value in cs;
      if latest.None? || Before(latest.value.date, cs[n].date) then Some(cs[n]) else latest
  }

  /** `cs[k]` has the greatest date and every chapter before it an earlier
      one: it is the first chapter of the latest date. */
  predicate FirstOfLatestDate(cs: seq<MangaChapter>, k: nat) {
    && k < |cs|
    && (forall j :: 0 <= j < |cs| ==> !Before(cs[k].date, cs[j].date))
    && (forall j :: 0 <= j < k ==> Before(cs[j].date, cs[k].date))
  }

  /** One manga row as a record, with its latest chapter. */
  function MangaView(chapters: seq<Raw.ChapterRow>, r: Raw.MangaRow): Result<Manga, Fault> {
    match ChaptersView(Raw.ChaptersOfManga(chapters, r.name))
    case Err(e) => Err(e)
    case Ok(cs) => Ok(Manga(r.name, r.url, LatestChapter(cs)))
  }

  function MangaReader(chapters: seq<Raw.ChapterRow>): Raw.MangaRow -> Result<Manga, Fault> {
    r => MangaView(chapters, r)
  }

  /** `read_mangas` over the given manga rows. */
  function MangasView(chapters: seq<Raw.ChapterRow>, rows: seq<Raw.MangaRow>): Result<seq<Manga>, Fault> {
    MapResult(rows, MangaReader(chapters))
  }

  /** One subscription row joined to the first chat with its id and the
      first manga with its name; a missing one raises. */
  function Joined(chats: seq<Chat>, mangas: seq<Manga>, r: Raw.SuscriptionRow): (s: Result<Suscription, Fault>)
    ensures s.Ok? <==> Has(chats, ChatId, r.chat) && FindMangaByName(mangas, r.manga).Some?
    ensures s.Err? ==> s.error == Raw.DanglingReference
    ensures s.Ok? ==> && s.value.chat in chats && s.value.chat.id == r.chat
                      && s.value.manga in mangas && s.value.manga.name == r.manga
                      && s.value.last == r.last
  {
    match FirstIndex(chats, ChatId, r.chat)
    case None => Err(Raw.DanglingReference)
    case Some(i) =>
      match FindMangaByName(mangas, r.manga)
      case None => Err(Raw.DanglingReference)
      case Some(m) => Ok(Suscription(chats[i], m, r.last))
  }

  function Joiner(chats: seq<Chat>, mangas: seq<Manga>): Raw.SuscriptionRow -> Result<Suscription, Fault> {
    r => Joined(chats, mangas, r)
  }

  function SuscriptionsView(chats: seq<Chat>, mangas: seq<Manga>, rows: seq<Raw.SuscriptionRow>): Result<seq<Suscription>, Fault> {
    MapResult(rows, Joiner(chats, mangas))
  }

  /** `read_suscriptions*` over the given subscription rows of `t`. */
  function SuscriptionsFrom(t: Raw.Tables, rows: seq<Raw.SuscriptionRow>): Result<seq<Suscription>, Fault> {
    match MangasView(t.chapters, t.mangas)
    case Err(e) => Err(e)
    case Ok(mangas) => SuscriptionsView(ChatsView(Raw.ChatsById(t.chats)), mangas, rows)
  }

  /** The `last_chapter` value `insert_manga` stores: None and "" both
      become "". */
  function StoredLast(lastChapter: Option<string>): (s: string)
    ensures s == "" <==> lastChapter.None? || lastChapter.value == ""
    ensures s != "" ==> s == lastChapter.value
  {
    if lastChapter.Some? && lastChapter.value != "" then lastChapter.value else ""
  }

  // ---------------------------------------------------------------------
  // The typed store

  class Database {
    var raw: Raw.Database?

    predicate Valid()
      reads this, raw
    {
      raw != null ==> raw.Valid()
    }

    /** The tables a read sees, or why it raises (before `init` the
        primitive store is not even set). */
    function State(): (s: Result<Raw.Tables, Fault>)
      reads this, raw
      ensures s.Ok? <==> raw != null && raw.conn.Open? && raw.tables.Some?
    {
      if raw == null then Err(Raw.NoConnection) else raw.Snapshot()
    }

    /** A write handed to the primitive store: same store, same
        connection, its answer and its effect. */
    twostate predicate Forwarded(new done: Result<bool, Fault>, new s: Raw.Statement)
      reads this, raw
    {
      && raw == old(raw)
      && (raw == null ==> done == Err(Raw.NoConnection))
      && (raw != null ==>
            && raw.conn == old(raw.conn)
            && (done, raw.tables) == Raw.WriteOutcome(old(raw.conn), old(raw.tables), s))
    }

    constructor ()
      ensures raw == null
    {
      raw := null;
    }

    /** `init`: a fresh primitive store, opened on the file and given the
        schema; an error opening the file is raised again. */
    method Init(file: Option<Raw.Tables>, opens: bool) returns (r: Outcome<Fault>)
      requires file.Some? ==> file.value.KeysUnique()
      modifies this
      ensures fresh(raw) && Valid()
      ensures opens ==> r == Pass && raw.conn == Raw.Open && raw.tables == Some(file.GetOr(Raw.Empty))
      ensures !opens ==> r == Fail(Raw.InitFailure) && raw.conn == Raw.Unset && raw.tables == None
    {
      var db := new Raw.Database();
      raw := db;
      r := db.Init(file, opens);
      if r.Fail? {
        return;
      }
      r := db.Create();
    }

    /** `close`: raises before `init`; afterwards every read raises. */
    method Close() returns (r: Outcome<Fault>)
      modifies raw
      ensures raw == null ==> r == Fail(Raw.NoConnection)
      ensures raw != null ==> raw.tables == old(raw.tables)
      ensures raw != null && old(raw.conn).Unset? ==> r == Fail(Raw.NoConnection)
      ensures raw != null && !old(raw.conn).Unset? ==> r == Pass && raw.conn == Raw.Closed
      ensures r == Pass ==> State().Err?
    {
      if raw == null {
        return Fail(Raw.NoConnection);
      }
      r := raw.Close();
    }

    // -------------------------------------------------------------------
    // Reads

    method ReadChats() returns (r: Result<seq<Chat>, Fault>)
      ensures State().Err? ==> r == Err(State().error)
      ensures State().Ok? ==> r == Ok(ChatsView(Raw.ChatsById(State().value.chats)))
    {
      if raw == null {
        return Err(Raw.NoConnection);
      }
      var rows := raw.ReadChats();
      if rows.Err? {
        return Err(rows.error);
      }
      var chats: seq<Chat> := [];
      var i := 0;
      while i < |rows.value|
        invariant i <= |rows.value|
        invariant chats == ChatsView(rows.value[..i])
      {
        chats := chats + [Chat(rows.value[i].id, rows.value[i].name)];
        i := i + 1;
      }
      assert rows.value[..i] == rows.value;
      return Ok(chats);
    }

    /** `read_chat_by_id`: a chat iff a row has that id. */
    method ReadChatById(chatId: int) returns (r: Result<Option<Chat>, Fault>)
      ensures State().Err? ==> r == Err(State().error)
      ensures State().Ok? ==> (r.Ok?
        && (r.value.Some? <==> Has(State().value.chats, Raw.ChatKey, chatId))
        && (r.value.Some? ==>
              r.value.value == ChatOfRow(State().value.chats[FirstIndex(State().value.chats, Raw.ChatKey, chatId).value])))
    {
      if raw == null {
        return Err(Raw.NoConnection);
      }
      var row := raw.ReadChatById(chatId);
      if row.Err? {
        return Err(row.error);
      }
      if row.value.None? {
        return Ok(None);
      }
      return Ok(Some(Chat(row.value.value.id, row.value.value.name)));
    }

    /** The conversion loop of `read_manga_chapters` and
        `read_manga_chapter_by_manga_name`. */
    method ConvertChapters(rows: seq<Raw.ChapterRow>) returns (r: Result<seq<MangaChapter>, Fault>)
      ensures r == MapResult(rows, ChapterOfRow)
    {
      var chapters: seq<MangaChapter> := [];
      var i := 0;
      while i < |rows|
        invariant i <= |rows|
        invariant MapResult(rows[..i], ChapterOfRow) == Ok(chapters)
      {
        var c := ConvertRow(rows[i]);
        TakeOneMore(rows, i);
        MapResultSnoc(rows[..i], rows[i], ChapterOfRow);
        if c.Err? {
          MapResultPrefixErr(rows, ChapterOfRow, i + 1);
          return Err(c.error);
        }
        chapters := chapters + [c.value];
        i := i + 1;
      }
      assert rows[..i] == rows;
      return Ok(chapters);
    }

    /** One row of that loop: `strptime` on the date column, then the
        record. */
    static method ConvertRow(row: Raw.ChapterRow) returns (c: Result<MangaChapter, Fault>)
      ensures c == ChapterOfRow(row)
    {
      var date := Parse(row.date);
      if date.None? {
        return Err(Raw.MalformedDate);
      }
      return Ok(MangaChapter(row.name, row.number, row.url, date.value, row.manga));
    }

    method ReadMangaChapters() returns (r: Result<seq<MangaChapter>, Fault>)
      ensures State().Err? ==> r == Err(State().error)
      ensures State().Ok? ==> r == ChaptersView(State().value.chapters)
    {
      if raw == null {
        return Err(Raw.NoConnection);
      }
      var rows := raw.ReadMangaChapters();
      if rows.Err? {
        return Err(rows.error);
      }
      r := ConvertChapters(rows.value);
      ChaptersViewIsMap(rows.value);
    }

    method ReadMangaChapterByMangaName(name: string) returns (r: Result<seq<MangaChapter>, Fault>)
      ensures State().Err? ==> r == Err(State().error)
      ensures State().Ok? ==> r == ChaptersView(Raw.ChaptersOfManga(State().value.chapters, name))
    {
      if raw == null {
        return Err(Raw.NoConnection);
      }
      var rows := raw.ReadMangaChapterByMangaName(name);
      if rows.Err? {
        return Err(rows.error);
      }
      r := ConvertChapters(rows.value);
      ChaptersViewIsMap(rows.value);
    }

    /** The inner loop of `read_mangas`: keep a chapter when there is none
        yet or it is strictly later than the one kept. */
    static method Latest(chapters: seq<MangaChapter>) returns (latest: Option<MangaChapter>)
      ensures latest == LatestChapter(chapters)
    {
      latest := None;
      var i := 0;
      while i < |chapters|
        invariant i <= |chapters|
        invariant latest == LatestChapter(chapters[..i])
      {
        assert chapters[..i + 1][..i] == chapters[..i];
        if latest.None? || Before(latest.value.date, chapters[i].date) {
          latest := Some(chapters[i]);
        }
        i := i + 1;
      }
      assert chapters[..i] == chapters;
    }

    /** The outer loop of `read_mangas` and `read_manga_by_name`. */
    method MangasOf(rows: seq<Raw.MangaRow>) returns (r: Result<seq<Manga>, Fault>)
      requires State().Ok?
      ensures r == MangasView(State().value.chapters, rows)
    {
      var chapters := State().value.chapters;
      var mangas: seq<Manga> := [];
      var i := 0;
      while i < |rows|
        invariant i <= |rows|
        invariant MapResult(rows[..i], MangaReader(chapters)) == Ok(mangas)
      {
        var m := MangaOf(rows[i]);
        TakeOneMore(rows, i);
        MapResultSnoc(rows[..i], rows[i], MangaReader(chapters));
        if m.Err? {
          MapResultPrefixErr(rows, MangaReader(chapters), i + 1);
          return Err(m.error);
        }
        mangas := mangas + [m.value];
        i := i + 1;
      }
      assert rows[..i] == rows;
      return Ok(mangas);
    }

    /** One manga row of that loop: its chapters, read by name, and the
        latest of them. */
    method MangaOf(row: Raw.MangaRow) returns (m: Result<Manga, Fault>)
      requires State().Ok?
      ensures m == MangaView(State().value.chapters, row)
    {
      var own := ReadMangaChapterByMangaName(row.name);
      if own.Err? {
        return Err(own.error);
      }
      var latest := Latest(own.value);
      return Ok(Manga(row.name, row.url, latest));
    }

    method ReadMangas() returns (r: Result<seq<Manga>, Fault>)
      ensures State().Err? ==> r == Err(State().error)
      ensures State().Ok? ==> r == MangasView(State().value.chapters, State().value.mangas)
    {
      if raw == null {
        return Err(Raw.NoConnection);
      }
      var rows := raw.ReadMangas();
      if rows.Err? {
        return Err(rows.error);
      }
      r := MangasOf(rows.value);
    }

    method ReadMangaByName(name: string) returns (r: Result<seq<Manga>, Fault>)
      ensures State().Err? ==> r == Err(State().error)
      ensures State().Ok? ==>
        r == MangasView(State().value.chapters, Select(State().value.mangas, Raw.MangaKey, name))
    {
      if raw == null {
        return Err(Raw.NoConnection);
      }
      var rows := raw.ReadMangaByName(name);
      if rows.Err? {
        return Err(rows.error);
      }
      r := MangasOf(rows.value);
    }

    /** The join loop of the three `read_suscriptions*` methods. */
    static method JoinRows(rows: seq<Raw.SuscriptionRow>, chats: seq<Chat>, mangas: seq<Manga>)
      returns (r: Result<seq<Suscription>, Fault>)
      ensures r == SuscriptionsView(chats, mangas, rows)
    {
      var subs: seq<Suscription> := [];
      var i := 0;
      while i < |rows|
        invariant i <= |rows|
        invariant MapResult(rows[..i], Joiner(chats, mangas)) == Ok(subs)
      {
        var s := JoinRow(rows[i], chats, mangas);
        TakeOneMore(rows, i);
        MapResultSnoc(rows[..i], rows[i], Joiner(chats, mangas));
        if s.Err? {
          MapResultPrefixErr(rows, Joiner(chats, mangas), i + 1);
          return Err(s.error);
        }
        subs := subs + [s.value];
        i := i + 1;
      }
      assert rows[..i] == rows;
      return Ok(subs);
    }

    /** One row of that loop: the chat and the manga it names, searched
        for in the lists read before. */
    static method JoinRow(row: Raw.SuscriptionRow, chats: seq<Chat>, mangas: seq<Manga>)
      returns (s: Result<Suscription, Fault>)
      ensures s == Joined(chats, mangas, row)
    {
      // only the id of the searched chat is compared
      var chat := SearchChatById(chats, Chat(row.chat, ""));
      var manga := SearchMangaByName(mangas, row.manga);
      if chat.None? || manga.None? {
        return Err(Raw.DanglingReference);
      }
      return Ok(Suscription(chat.value, manga.value, row.last));
    }

    /** The shared body of the `read_suscriptions*` methods once the rows
        are read: fresh chats and mangas, then the join. */
    method JoinFresh(rows: seq<Raw.SuscriptionRow>) returns (r: Result<seq<Suscription>, Fault>)
      requires State().Ok?
      ensures r == SuscriptionsFrom(State().value, rows)
    {
      var chats := ReadChats();
      var mangas := ReadMangas();
      if mangas.Err? {
        return Err(mangas.error);
      }
      r := JoinRows(rows, chats.value, mangas.value);
    }

    method ReadSuscriptions() returns (r: Result<seq<Suscription>, Fault>)
      ensures State().Err? ==> r == Err(State().error)
      ensures State().Ok? ==> r == SuscriptionsFrom(State().value, State().value.suscriptions)
    {
      if raw == null {
        return Err(Raw.NoConnection);
      }
      var rows := raw.ReadSuscriptions();
      if rows.Err? {
        return Err(rows.error);
      }
      r := JoinFresh(rows.value);
    }

    method ReadSuscriptionByChat(chatId: int) returns (r: Result<seq<Suscription>, Fault>)
      ensures State().Err? ==> r == Err(State().error)
      ensures State().Ok? ==>
        r == SuscriptionsFrom(State().value, Raw.SuscriptionsOfChat(State().value.suscriptions, chatId))
    {
      if raw == null {
        return Err(Raw.NoConnection);
      }
      var rows := raw.ReadSuscriptionByChat(chatId);
      if rows.Err? {
        return Err(rows.error);
      }
      r := JoinFresh(rows.value);
    }

    method ReadSuscriptionByManga(manga: string) returns (r: Result<seq<Suscription>, Fault>)
      ensures State().Err? ==> r == Err(State().error)
      ensures State().Ok? ==>
        r == SuscriptionsFrom(State().value, Select(State().value.suscriptions, Raw.SuscriptionManga, manga))
    {
      if raw == null {
        return Err(Raw.NoConnection);
      }
      var rows := raw.ReadSuscriptionByManga(manga);
      if rows.Err? {
        return Err(rows.error);
      }
      r := JoinFresh(rows.value);
    }

    // -------------------------------------------------------------------
    // Writes

    method InsertChat(chatId: int, chatName: string) returns (done: Result<bool, Fault>)
      requires Valid()
      modifies raw
      ensures Valid() && Forwarded(done, Raw.InsertChat(chatId, chatName))
    {
      if raw == null {
        return Err(Raw.NoConnection);
      }
      done := raw.InsertChat(chatId, chatName);
    }

    method InsertSuscription(chatId: int, mangaName: string, lastChapter: string) returns (done: Result<bool, Fault>)
      requires Valid()
      modifies raw
      ensures Valid() && Forwarded(done, Raw.InsertSuscription(chatId, mangaName, lastChapter))
    {
      if raw == null {
        return Err(Raw.NoConnection);
      }
      done := raw.InsertSuscription(chatId, mangaName, lastChapter);
    }

    /** `insert_manga_chapter`: the date is stored in its text form. */
    method InsertMangaChapter(name: string, number: string, url: string, date: DateTime, mangaName: string)
      returns (done: Result<bool, Fault>)
      requires Valid()
      modifies raw
      ensures Valid() && Forwarded(done, Raw.InsertMangaChapter(name, number, url, Format(date), mangaName))
    {
      if raw == null {
        return Err(Raw.NoConnection);
      }
      done := raw.InsertMangaChapter(name, number, url, Format(date), mangaName);
    }

    /** `insert_manga`: a missing or empty last chapter is stored as "". */
    method InsertManga(name: string, url: string, lastChapter: Option<string>) returns (done: Result<bool, Fault>)
      requires Valid()
      modifies raw
      ensures Valid() && Forwarded(done, Raw.InsertManga(name, url, StoredLast(lastChapter)))
    {
      if raw == null {
        return Err(Raw.NoConnection);
      }
      var last := if lastChapter.Some? && lastChapter.value != "" then lastChapter.value else "";
      done := raw.InsertManga(name, url, last);
    }

    method DeleteChat(chatId: int) returns (done: Result<bool, Fault>)
      requires Valid()
      modifies raw
      ensures Valid() && Forwarded(done, Raw.DeleteChat(chatId))
    {
      if raw == null {
        return Err(Raw.NoConnection);
      }
      done := raw.DeleteChat(chatId);
    }

    method DeleteSuscription(chatId: int, mangaName: string) returns (done: Result<bool, Fault>)
      requires Valid()
      modifies raw
      ensures Valid() && Forwarded(done, Raw.DeleteSuscription(chatId, mangaName))
    {
      if raw == null {
        return Err(Raw.NoConnection);
      }
      done := raw.DeleteSuscription(chatId, mangaName);
    }

    method DeleteMangaChapter(mangaName: string, chapterName: string) returns (done: Result<bool, Fault>)
      requires Valid()
      modifies raw
      ensures Valid() && Forwarded(done, Raw.DeleteMangaChapter(mangaName, chapterName))
    {
      if raw == null {
        return Err(Raw.NoConnection);
      }
      done := raw.DeleteMangaChapter(mangaName, chapterName);
    }

    method DeleteManga(name: string) returns (done: Result<bool, Fault>)
      requires Valid()
      modifies raw
      ensures Valid() && Forwarded(done, Raw.DeleteManga(name))
    {
      if raw == null {
        return Err(Raw.NoConnection);
      }
      done := raw.DeleteManga(name);
    }

    method UpdateChatName(chatId: int, chatName: string) returns (done: Result<bool, Fault>)
      requires Valid()
      modifies raw
      ensures Valid() && Forwarded(done, Raw.UpdateChatName(chatId, chatName))
    {
      if raw == null {
        return Err(Raw.NoConnection);
      }
      done := raw.UpdateChatName(chatId, chatName);
    }

    method UpdateSuscriptionLast(chatId: int, mangaName: string, lastChapter: string) returns (done: Result<bool, Fault>)
      requires Valid()
      modifies raw
      ensures Valid() && Forwarded(done, Raw.UpdateSuscriptionLast(chatId, mangaName, lastChapter))
    {
      if raw == null {
        return Err(Raw.NoConnection);
      }
      done := raw.UpdateSuscriptionLast(chatId, mangaName, lastChapter);
    }

    method UpdateMangaLast(mangaName: string, lastChapter: string) returns (done: Result<bool, Fault>)
      requires Valid()
      modifies raw
      ensures Valid() && Forwarded(done, Raw.UpdateManga(mangaName, lastChapter))
    {
      if raw == null {
        return Err(Raw.NoConnection);
      }
      done := raw.UpdateManga(mangaName, lastChapter);
    }
  }

  // ---------------------------------------------------------------------
  // Lemmas

  /** The latest chapter is the first chapter of the greatest date: a later
      chapter with an equal date does not replace it. */
  lemma {:induction false} LatestIsFirstOfLatestDate(cs: seq<MangaChapter>)
    requires cs != []
    ensures exists k: nat :: FirstOfLatestDate(cs, k) && LatestChapter(cs) == Some(cs[k])
  {
    var n := |cs| - 1;
    var p := cs[..n];
    var latest := LatestChapter(p);
    if latest.None? {
      BeforeIsStrictTotalOrder(cs[0].date, cs[0].date, cs[0].date);
      assert FirstOfLatestDate(cs, 0);
    } else {
      LatestIsFirstOfLatestDate(p);
      var k: nat :| FirstOfLatestDate(p, k) && latest == Some(p[k]);
      if Before(p[k].date, cs[n].date) {
        LaterLastIsFirst(cs, k);
      } else {
        EarlierLastKeepsFirst(cs, k);
      }
    }
  }

  /** A last chapter strictly later than the first of the latest date
      before it becomes the first of the latest date. */
  lemma LaterLastIsFirst(cs: seq<MangaChapter>, k: nat)
    requires cs != [] && FirstOfLatestDate(cs[..|cs| - 1], k)
    requires Before(cs[k].date, cs[|cs| - 1].date)
    ensures FirstOfLatestDate(cs, |cs| - 1)
  {
    var n := |cs| - 1;
    var top := cs[k].date;
    forall j | 0 <= j < |cs|
      ensures !Before(cs[n].date, cs[j].date)
      ensures j < n ==> Before(cs[j].date, cs[n].date)
    {
      BeforeIsStrictTotalOrder(cs[n].date, cs[n].date, cs[n].date);
      if j < n {
        assert cs[j] == cs[..n][j];
        BeforeIsStrictTotalOrder(cs[j].date, top, cs[n].date);
        BeforeIsStrictTotalOrder(cs[n].date, cs[j].date, top);
      }
    }
  }

  /** A last chapter not later than the first of the latest date before
      it leaves that chapter first. */
  lemma EarlierLastKeepsFirst(cs: seq<MangaChapter>, k: nat)
    requires cs != [] && FirstOfLatestDate(cs[..|cs| - 1], k)
    requires !Before(cs[k].date, cs[|cs| - 1].date)
    ensures FirstOfLatestDate(cs, k)
  {
    var n := |cs| - 1;
    forall j | 0 <= j < |cs|
      ensures !Before(cs[k].date, cs[j].date)
      ensures j < k ==> Before(cs[j].date, cs[k].date)
    {
      if j < n {
        assert cs[j] == cs[..n][j];
      }
    }
  }

  /** The stored `last_chapter` column is invisible to the reads: updating
      it changes neither the mangas nor the subscriptions read back. */
  lemma StoredLastChapterIsNeverRead(t: Raw.Tables, name: string, lastChapter: string)
    requires Raw.Apply(t, Raw.UpdateManga(name, lastChapter)).Some?
    ensures var u := Raw.Apply(t, Raw.UpdateManga(name, lastChapter)).value;
      && MangasView(u.chapters, u.mangas) == MangasView(t.chapters, t.mangas)
      && SuscriptionsFrom(u, u.suscriptions) == SuscriptionsFrom(t, t.suscriptions)
  {
    var s := Raw.UpdateManga(name, lastChapter);
    var u := Raw.Apply(t, s).value;
    Raw.ApplyUpdate(t, s);
    var f := MangaReader(t.chapters);
    forall i | 0 <= i < |t.mangas|
      ensures f(u.mangas[i]) == f(t.mangas[i])
    {
      assert u.mangas[i] == t.mangas[i] || u.mangas[i] == t.mangas[i].(lastChapter := lastChapter);
    }
    MapResultPointwise(u.mangas, t.mangas, f);
  }

  /** A chapter inserted through the typed store reads back with the same
      fields and its date truncated to the second, among the chapters of
      its manga that were there before, at its name's place. */
  lemma InsertedChapterReadsBackTruncated(t: Raw.Tables, name: string, number: string, url: string,
                                          date: DateTime, manga: string)
    requires UniqueKeys(t.chapters, Raw.ChapterKey)
    requires Raw.Apply(t, Raw.InsertMangaChapter(name, number, url, Format(date), manga)).Some?
    requires ChaptersView(Raw.ChaptersOfManga(t.chapters, manga)).Ok?
    ensures var u := Raw.Apply(t, Raw.InsertMangaChapter(name, number, url, Format(date), manga)).value;
      var before := ChaptersView(Raw.ChaptersOfManga(t.chapters, manga)).value;
      exists k :: 0 <= k <= |before| &&
        ChaptersView(Raw.ChaptersOfManga(u.chapters, manga))
          == Ok(before[..k] + [MangaChapter(name, number, url, Truncate(date), manga)] + before[k..])
  {
    var u := Raw.Apply(t, Raw.InsertMangaChapter(name, number, url, Format(date), manga)).value;
    var row := Raw.ChapterRow(name, number, url, Format(date), manga);
    var rows := Raw.ChaptersOfManga(t.chapters, manga);
    Raw.InsertedChapterReadsBack(t, name, number, url, Format(date), manga);
    var k :| 0 <= k <= |rows| && Raw.ChaptersOfManga(u.chapters, manga) == rows[..k] + [row] + rows[k..];
    FormatParse(date);
    ChaptersViewInsert(rows, row, k, MangaChapter(name, number, url, Truncate(date), manga));
  }

  /** Converting rows with one row put in at `k` puts its chapter in at `k`. */
  lemma ChaptersViewInsert(rows: seq<Raw.ChapterRow>, row: Raw.ChapterRow, k: nat, c: MangaChapter)
    requires k <= |rows| && ChaptersView(rows).Ok? && ChapterOfRow(row) == Ok(c)
    ensures var before := ChaptersView(rows).value;
      ChaptersView(rows[..k] + [row] + rows[k..]) == Ok(before[..k] + [c] + before[k..])
  {
    var before := ChaptersView(rows).value;
    var after := rows[..k] + [row] + rows[k..];
    var want := before[..k] + [c] + before[k..];
    forall i | 0 <= i < |after|
      ensures ChapterOfRow(after[i]) == Ok(want[i])
    {
      if i < k {
        assert after[i] == rows[i] && want[i] == before[i];
      } else if i > k {
        assert after[i] == rows[i - 1] && want[i] == before[i - 1];
      }
    }
    MapResultExact(after, ChapterOfRow, want);
  }

  /** Read in name order, a manga's latest chapter is, among its chapters of
      the greatest date, the one whose name comes first (not the one
      inserted first). */
  lemma LatestIsSmallestNameOfLatestDate(chapters: seq<Raw.ChapterRow>, manga: string, cs: seq<MangaChapter>)
    requires ChaptersView(Raw.ChaptersOfManga(chapters, manga)) == Ok(cs) && cs != []
    ensures LatestChapter(cs).Some?
    ensures forall d :: d in cs ==> !Before(LatestChapter(cs).value.date, d.date)
    ensures forall d :: d in cs && !Before(d.date, LatestChapter(cs).value.date) ==>
      NotAfter(LatestChapter(cs).value.name, d.name)
  {
    var rows := Raw.ChaptersOfManga(chapters, manga);
    Raw.ChaptersOfMangaIsOrdered(chapters, manga);
    LatestIsFirstOfLatestDate(cs);
    var k: nat :| FirstOfLatestDate(cs, k) && LatestChapter(cs) == Some(cs[k]);
    forall d | d in cs
      ensures !Before(cs[k].date, d.date)
      ensures !Before(d.date, cs[k].date) ==> NotAfter(cs[k].name, d.name)
    {
      var j :| 0 <= j < |cs| && cs[j] == d;
      if j == k {
        NotAfterReflexive(d.name);
      } else if k < j {
        assert NotAfter(Raw.ChapterName(rows[k]), Raw.ChapterName(rows[j]));
        assert ChapterOfRow(rows[k]) == Ok(cs[k]) && ChapterOfRow(rows[j]) == Ok(cs[j]);
      }
    }
  }

  /** The join succeeds exactly when every row names an existing chat and
      an existing manga; then the i-th subscription is the i-th row's. */
  lemma JoinSucceedsIffReferencesResolve(chats: seq<Chat>, mangas: seq<Manga>, rows: seq<Raw.SuscriptionRow>)
    ensures SuscriptionsView(chats, mangas, rows).Ok? <==>
      forall i :: 0 <= i < |rows| ==> Has(chats, ChatId, rows[i].chat) && FindMangaByName(mangas, rows[i].manga).Some?
    ensures SuscriptionsView(chats, mangas, rows).Ok? ==>
      var subs := SuscriptionsView(chats, mangas, rows).value;
      && |subs| == |rows|
      && forall i :: 0 <= i < |rows| ==>
           && subs[i].chat.id == rows[i].chat && subs[i].manga.name == rows[i].manga
           && subs[i].last == rows[i].last && subs[i].manga in mangas
  {
    var f := Joiner(chats, mangas);
    var r := MapResult(rows, f);
    if r.Ok? {
      MapResultOk(rows, f, r.value);
      assert forall i :: 0 <= i < |rows| ==> f(rows[i]) == Ok(r.value[i]);
    } else if forall i :: 0 <= i < |rows| ==> f(rows[i]).Ok? {
      MapResultAllOk(rows, f);
    }
  }
}
