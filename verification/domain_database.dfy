/** The primitive store (src/domain/database.py): four SQLite tables of
    plain rows behind a connection that may be unset, open or closed.

    The SQL engine is not modelled; what it contributes is kept: each
    table's primary key is unique, foreign keys are not enforced, and
    (src/infrastructure/sqlite_client.py:49-50) a write that touches no row
    is a failure. No query has an ORDER BY, so the order rows come back in
    is the one SQLite's query plan visits them in, which the model fixes as
    follows. A table is kept as the sequence of its rows in insertion
    order. For the three tables without an INTEGER PRIMARY KEY that is
    rowid order (a new rowid exceeds every present one), and a full scan
    returns it. The `id INTEGER PRIMARY KEY` of `chats` is its rowid, so
    its scan returns id order. A filter on the leading column of a
    composite primary key goes through that key's index and returns the
    matching rows ordered by the key's second column (BINARY collation:
    code-point order); a filter on any other column is a full scan. */
module DomainDatabase {
  import opened Wrappers
  import opened Seqs
  import opened Order

  // ---------------------------------------------------------------------
  // Rows and tables

  datatype ChatRow = ChatRow(id: int, name: string)
  datatype MangaRow = MangaRow(name: string, url: string, lastChapter: string)
  datatype ChapterRow = ChapterRow(name: string, number: string, url: string, date: string, manga: string)
  datatype SuscriptionRow = SuscriptionRow(chat: int, manga: string, last: string)

  /** Primary keys. */
  function ChatKey(r: ChatRow): int { r.id }
  function MangaKey(r: MangaRow): string { r.name }
  function ChapterKey(r: ChapterRow): (string, string) { (r.manga, r.name) }
  function SuscriptionKey(r: SuscriptionRow): (int, string) { (r.chat, r.manga) }

  /** Columns the reads filter on. */
  function ChapterManga(r: ChapterRow): string { r.manga }
  function SuscriptionChat(r: SuscriptionRow): int { r.chat }
  function SuscriptionManga(r: SuscriptionRow): string { r.manga }
  function ChapterName(r: ChapterRow): string { r.name }

  datatype Tables = Tables(
    chats: seq<ChatRow>, mangas: seq<MangaRow>,
    chapters: seq<ChapterRow>, suscriptions: seq<SuscriptionRow>)
  {
    /** The PRIMARY KEY constraints of the four CREATE TABLE statements. */
    predicate KeysUnique() {
      && UniqueKeys(chats, ChatKey)
      && UniqueKeys(mangas, MangaKey)
      && UniqueKeys(chapters, ChapterKey)
      && UniqueKeys(suscriptions, SuscriptionKey)
    }
  }

  // ---------------------------------------------------------------------
  // The order the reads return rows in

  /** `SELECT * FROM chats`: the rowid scan, in ascending id order. */
  function ChatsById(chats: seq<ChatRow>): seq<ChatRow> {
    SortByNumber(chats, ChatKey)
  }

  /** `SELECT * FROM manga_chapters WHERE manga = ?`: through the
      (manga, name) index, so in chapter-name order. */
  function ChaptersOfManga(chapters: seq<ChapterRow>, manga: string): seq<ChapterRow> {
    SortBy(Select(chapters, ChapterManga, manga), ChapterName)
  }

  /** `SELECT * FROM suscriptions WHERE chat = ?`: through the
      (chat, manga) index, so in manga-name order. */
  function SuscriptionsOfChat(suscriptions: seq<SuscriptionRow>, chat: int): seq<SuscriptionRow> {
    SortBy(Select(suscriptions, SuscriptionChat, chat), SuscriptionManga)
  }

  /** `read_chats` returns every chat row once, in ascending id order. */
  lemma ChatsByIdIsOrdered(chats: seq<ChatRow>)
    ensures SortedByNumber(ChatsById(chats), ChatKey)
    ensures multiset(ChatsById(chats)) == multiset(chats)
  {
    SortByNumberIsSortedPermutation(chats, ChatKey);
  }

  /** `read_manga_chapter_by_manga_name` returns exactly the rows of that
      manga, each once, in name order. */
  lemma ChaptersOfMangaIsOrdered(chapters: seq<ChapterRow>, manga: string)
    ensures SortedBy(ChaptersOfManga(chapters, manga), ChapterName)
    ensures multiset(ChaptersOfManga(chapters, manga)) == multiset(Select(chapters, ChapterManga, manga))
    ensures forall x :: x in ChaptersOfManga(chapters, manga) <==> x in chapters && x.manga == manga
  {
    var rows := Select(chapters, ChapterManga, manga);
    SortByIsSortedPermutation(rows, ChapterName);
    SelectMembers(chapters, ChapterManga, manga);
    SameMembers(SortBy(rows, ChapterName), rows);
  }

  /** `read_suscription_by_chat` returns exactly the rows of that chat,
      each once, in manga-name order. */
  lemma SuscriptionsOfChatIsOrdered(suscriptions: seq<SuscriptionRow>, chat: int)
    ensures SortedBy(SuscriptionsOfChat(suscriptions, chat), SuscriptionManga)
    ensures multiset(SuscriptionsOfChat(suscriptions, chat)) == multiset(Select(suscriptions, SuscriptionChat, chat))
    ensures forall x :: x in SuscriptionsOfChat(suscriptions, chat) <==> x in suscriptions && x.chat == chat
  {
    var rows := Select(suscriptions, SuscriptionChat, chat);
    SortByIsSortedPermutation(rows, SuscriptionManga);
    SelectMembers(suscriptions, SuscriptionChat, chat);
    SameMembers(SortBy(rows, SuscriptionManga), rows);
  }

  /** The tables as `create` leaves a file that had none. */
  const Empty := Tables([], [], [], [])

  datatype Table = Chats | Mangas | Chapters | Suscriptions

  /** Every table but `tab` is the same in `t` and `u`. */
  predicate SameExcept(t: Tables, u: Tables, tab: Table) {
    && (tab != Chats ==> u.chats == t.chats)
    && (tab != Mangas ==> u.mangas == t.mangas)
    && (tab != Chapters ==> u.chapters == t.chapters)
    && (tab != Suscriptions ==> u.suscriptions == t.suscriptions)
  }

  /** Why a call raises instead of returning. */
  datatype Fault =
    | NoConnection       // the manager was never set (AttributeError)
    | ClosedConnection   // the connection was closed
    | NoSuchTable        // the schema was never created in the file
    | InitFailure        // the database file could not be opened
    | MalformedDate      // a stored chapter date does not parse
    | DanglingReference  // a subscription names a chat or manga with no row

  // ---------------------------------------------------------------------
  // Statements

  /** The eleven writing SQL statements, with their parameters. */
  datatype Statement =
    | InsertChat(id: int, name: string)
    | InsertSuscription(chat: int, manga: string, last: string)
    | InsertMangaChapter(name: string, number: string, url: string, date: string, manga: string)
    | InsertManga(name: string, url: string, lastChapter: string)
    | DeleteChat(id: int)
    | DeleteSuscription(chat: int, manga: string)
    | DeleteMangaChapter(manga: string, name: string)
    | DeleteManga(name: string)
    | UpdateChatName(id: int, name: string)
    | UpdateSuscriptionLast(chat: int, manga: string, last: string)
    | UpdateManga(name: string, lastChapter: string)
  {
    predicate IsInsert() {
      InsertChat? || InsertSuscription? || InsertMangaChapter? || InsertManga?
    }

    /** The table the statement writes. */
    function Target(): Table {
      match this
      case InsertChat(_, _) => Chats
      case DeleteChat(_) => Chats
      case UpdateChatName(_, _) => Chats
      case InsertManga(_, _, _) => Mangas
      case DeleteManga(_) => Mangas
      case UpdateManga(_, _) => Mangas
      case InsertMangaChapter(_, _, _, _, _) => Chapters
      case DeleteMangaChapter(_, _) => Chapters
      case InsertSuscription(_, _, _) => Suscriptions
      case DeleteSuscription(_, _) => Suscriptions
      case UpdateSuscriptionLast(_, _, _) => Suscriptions
    }
  }

  /** Whether the target table holds a row with the primary key the
      statement names (the new row's key, for an insert). */
  predicate KeyPresent(t: Tables, s: Statement) {
    match s
    case InsertChat(id, _) => Has(t.chats, ChatKey, id)
    case DeleteChat(id) => Has(t.chats, ChatKey, id)
    case UpdateChatName(id, _) => Has(t.chats, ChatKey, id)
    case InsertManga(name, _, _) => Has(t.mangas, MangaKey, name)
    case DeleteManga(name) => Has(t.mangas, MangaKey, name)
    case UpdateManga(name, _) => Has(t.mangas, MangaKey, name)
    case InsertMangaChapter(name, _, _, _, manga) => Has(t.chapters, ChapterKey, (manga, name))
    case DeleteMangaChapter(manga, name) => Has(t.chapters, ChapterKey, (manga, name))
    case InsertSuscription(chat, manga, _) => Has(t.suscriptions, SuscriptionKey, (chat, manga))
    case DeleteSuscription(chat, manga) => Has(t.suscriptions, SuscriptionKey, (chat, manga))
    case UpdateSuscriptionLast(chat, manga, _) => Has(t.suscriptions, SuscriptionKey, (chat, manga))
  }

  /** The SET clauses of the three UPDATE statements. */
  function WithName(name: string): ChatRow -> ChatRow { (r: ChatRow) => r.(name := name) }
  function WithLast(last: string): SuscriptionRow -> SuscriptionRow { (r: SuscriptionRow) => r.(last := last) }
  function WithLastChapter(lastChapter: string): MangaRow -> MangaRow { (r: MangaRow) => r.(lastChapter := lastChapter) }

  /** Executes one statement: the new tables, or None when SQLite raises
      (a primary-key conflict) or the statement touches no row. */
  function Apply(t: Tables, s: Statement): (r: Option<Tables>)
    ensures s.IsInsert() ==> (r.None? <==> KeyPresent(t, s))
    ensures !s.IsInsert() ==> (r.None? <==> !KeyPresent(t, s))
    ensures r.Some? ==> SameExcept(t, r.value, s.Target())
  {
    match s
    case InsertChat(id, name) =>
      if Has(t.chats, ChatKey, id) then None
      else Some(t.(chats := t.chats + [ChatRow(id, name)]))
    case InsertSuscription(chat, manga, last) =>
      if Has(t.suscriptions, SuscriptionKey, (chat, manga)) then None
      else Some(t.(suscriptions := t.suscriptions + [SuscriptionRow(chat, manga, last)]))
    case InsertMangaChapter(name, number, url, date, manga) =>
      if Has(t.chapters, ChapterKey, (manga, name)) then None
      else Some(t.(chapters := t.chapters + [ChapterRow(name, number, url, date, manga)]))
    case InsertManga(name, url, lastChapter) =>
      if Has(t.mangas, MangaKey, name) then None
      else Some(t.(mangas := t.mangas + [MangaRow(name, url, lastChapter)]))
    case DeleteChat(id) =>
      if !Has(t.chats, ChatKey, id) then None
      else Some(t.(chats := Without(t.chats, ChatKey, id)))
    case DeleteSuscription(chat, manga) =>
      if !Has(t.suscriptions, SuscriptionKey, (chat, manga)) then None
      else Some(t.(suscriptions := Without(t.suscriptions, SuscriptionKey, (chat, manga))))
    case DeleteMangaChapter(manga, name) =>
      if !Has(t.chapters, ChapterKey, (manga, name)) then None
      else Some(t.(chapters := Without(t.chapters, ChapterKey, (manga, name))))
    case DeleteManga(name) =>
      if !Has(t.mangas, MangaKey, name) then None
      else Some(t.(mangas := Without(t.mangas, MangaKey, name)))
    case UpdateChatName(id, name) =>
      if !Has(t.chats, ChatKey, id) then None
      else Some(t.(chats := Update(t.chats, ChatKey, id, WithName(name))))
    case UpdateSuscriptionLast(chat, manga, last) =>
      if !Has(t.suscriptions, SuscriptionKey, (chat, manga)) then None
      else Some(t.(suscriptions := Update(t.suscriptions, SuscriptionKey, (chat, manga), WithLast(last))))
    case UpdateManga(name, lastChapter) =>
      if !Has(t.mangas, MangaKey, name) then None
      else Some(t.(mangas := Update(t.mangas, MangaKey, name, WithLastChapter(lastChapter))))
  }

  // ---------------------------------------------------------------------
  // The connection

  datatype Connection = Unset | Open | Closed

  /** What a write method of the store returns and leaves in the file:
      with no manager the call raises; on a closed connection, a missing
      table or a failed statement it returns false and nothing changes. */
  function WriteOutcome(conn: Connection, tables: Option<Tables>, s: Statement): (o: (Result<bool, Fault>, Option<Tables>))
    ensures o.0.Err? <==> conn.Unset?
    ensures o.0 == Ok(true) <==> conn.Open? && tables.Some? && Apply(tables.value, s).Some?
    ensures o.0 == Ok(true) ==> o.1 == Apply(tables.value, s)
    ensures o.0 != Ok(true) ==> o.1 == tables
  {
    match conn
    case Unset => (Err(NoConnection), tables)
    case Closed => (Ok(false), tables)
    case Open =>
      if tables.None? then (Ok(false), tables)
      else
        match Apply(tables.value, s)
        case None => (Ok(false), tables)
        case Some(u) => (Ok(true), Some(u))
  }

  /** The tables an open store holds after a write: the statement's effect,
      or the same tables when the statement fails. */
  function Written(t: Tables, s: Statement): (u: Tables)
    ensures WriteOutcome(Open, Some(t), s) == (Ok(Apply(t, s).Some?), Some(u))
  {
    match Apply(t, s)
    case Some(u) => u
    case None => t
  }

  /** The primitive `Database` class. `tables` is the content of the file
      the connection is open on: None until `create` has run on it. */
  class Database {
    var conn: Connection
    var tables: Option<Tables>

    predicate Valid()
      reads this
    {
      tables.Some? ==> tables.value.KeysUnique()
    }

    /** The tables a read sees, or why it raises. */
    function Snapshot(): (r: Result<Tables, Fault>)
      reads this
      ensures r.Ok? <==> conn.Open? && tables.Some?
      ensures r.Ok? ==> r.value == tables.value
    {
      match conn
      case Unset => Err(NoConnection)
      case Closed => Err(ClosedConnection)
      case Open => if tables.None? then Err(NoSuchTable) else Ok(tables.value)
    }

    /** `Database()`: the manager is not set yet. */
    constructor ()
      ensures conn == Unset && tables == None && Valid()
    {
      conn := Unset;
      tables := None;
    }

    /** `init(filepath)`: opens a connection on the file whose content is
        `file`; `opens` says whether the file could be opened. When it
        cannot, the call raises and the manager keeps its old value. */
    method Init(file: Option<Tables>, opens: bool) returns (r: Outcome<Fault>)
      requires Valid()
      requires file.Some? ==> file.value.KeysUnique()
      modifies this
      ensures Valid()
      ensures opens ==> r == Pass && conn == Open && tables == file
      ensures !opens ==> r == Fail(InitFailure) && conn == old(conn) && tables == old(tables)
    {
      if !opens {
        return Fail(InitFailure);
      }
      conn := Open;
      tables := file;
      return Pass;
    }

    /** `create`: the four CREATE TABLE IF NOT EXISTS statements. */
    method Create() returns (r: Outcome<Fault>)
      requires Valid()
      modifies this
      ensures Valid() && conn == old(conn)
      ensures old(conn).Unset? ==> r == Fail(NoConnection) && tables == old(tables)
      ensures old(conn).Closed? ==> r == Fail(ClosedConnection) && tables == old(tables)
      ensures old(conn).Open? ==> r == Pass && tables == Some(old(tables).GetOr(Empty))
    {
      match conn
      case Unset => return Fail(NoConnection);
      case Closed => return Fail(ClosedConnection);
      case Open =>
        if tables.None? {
          tables := Some(Empty);
        }
        return Pass;
    }

    /** `close`: raises when the manager was never set; closing twice is
        allowed. */
    method Close() returns (r: Outcome<Fault>)
      modifies this
      ensures tables == old(tables)
      ensures old(conn).Unset? ==> r == Fail(NoConnection) && conn == Unset
      ensures !old(conn).Unset? ==> r == Pass && conn == Closed
    {
      if conn.Unset? {
        return Fail(NoConnection);
      }
      conn := Closed;
      return Pass;
    }

    // -------------------------------------------------------------------
    // Reads: every row of the queried table that matches, in the order
    // the query plan visits them

    method ReadChats() returns (r: Result<seq<ChatRow>, Fault>)
      ensures Snapshot().Err? ==> r == Err(Snapshot().error)
      ensures Snapshot().Ok? ==> r == Ok(ChatsById(tables.value.chats))
    {
      var s := Snapshot();
      if s.Err? {
        return Err(s.error);
      }
      return Ok(ChatsById(s.value.chats));
    }

    /** `read_chat_by_id`: the chat with that id, or None. */
    method ReadChatById(id: int) returns (r: Result<Option<ChatRow>, Fault>)
      ensures Snapshot().Err? ==> r == Err(Snapshot().error)
      ensures Snapshot().Ok? ==> (r.Ok?
        && (r.value.Some? <==> Has(tables.value.chats, ChatKey, id))
        && (r.value.Some? ==> r.value.value == tables.value.chats[FirstIndex(tables.value.chats, ChatKey, id).value]))
    {
      var s := Snapshot();
      if s.Err? {
        return Err(s.error);
      }
      var rows := Select(s.value.chats, ChatKey, id);
      SelectFirst(s.value.chats, ChatKey, id);
      if rows == [] {
        return Ok(None);
      }
      return Ok(Some(rows[0]));
    }

    method ReadSuscriptions() returns (r: Result<seq<SuscriptionRow>, Fault>)
      ensures Snapshot().Err? ==> r == Err(Snapshot().error)
      ensures Snapshot().Ok? ==> r == Ok(tables.value.suscriptions)
    {
      var s := Snapshot();
      if s.Err? {
        return Err(s.error);
      }
      return Ok(s.value.suscriptions);
    }

    method ReadSuscriptionByChat(chat: int) returns (r: Result<seq<SuscriptionRow>, Fault>)
      ensures Snapshot().Err? ==> r == Err(Snapshot().error)
      ensures Snapshot().Ok? ==> r == Ok(SuscriptionsOfChat(tables.value.suscriptions, chat))
    {
      var s := Snapshot();
      if s.Err? {
        return Err(s.error);
      }
      return Ok(SuscriptionsOfChat(s.value.suscriptions, chat));
    }

    method ReadSuscriptionByManga(manga: string) returns (r: Result<seq<SuscriptionRow>, Fault>)
      ensures Snapshot().Err? ==> r == Err(Snapshot().error)
      ensures Snapshot().Ok? ==> r == Ok(Select(tables.value.suscriptions, SuscriptionManga, manga))
    {
      var s := Snapshot();
      if s.Err? {
        return Err(s.error);
      }
      return Ok(Select(s.value.suscriptions, SuscriptionManga, manga));
    }

    method ReadMangaChapters() returns (r: Result<seq<ChapterRow>, Fault>)
      ensures Snapshot().Err? ==> r == Err(Snapshot().error)
      ensures Snapshot().Ok? ==> r == Ok(tables.value.chapters)
    {
      var s := Snapshot();
      if s.Err? {
        return Err(s.error);
      }
      return Ok(s.value.chapters);
    }

    method ReadMangaChapterByMangaName(name: string) returns (r: Result<seq<ChapterRow>, Fault>)
      ensures Snapshot().Err? ==> r == Err(Snapshot().error)
      ensures Snapshot().Ok? ==> r == Ok(ChaptersOfManga(tables.value.chapters, name))
    {
      var s := Snapshot();
      if s.Err? {
        return Err(s.error);
      }
      return Ok(ChaptersOfManga(s.value.chapters, name));
    }

    method ReadMangas() returns (r: Result<seq<MangaRow>, Fault>)
      ensures Snapshot().Err? ==> r == Err(Snapshot().error)
      ensures Snapshot().Ok? ==> r == Ok(tables.value.mangas)
    {
      var s := Snapshot();
      if s.Err? {
        return Err(s.error);
      }
      return Ok(s.value.mangas);
    }

    method ReadMangaByName(name: string) returns (r: Result<seq<MangaRow>, Fault>)
      ensures Snapshot().Err? ==> r == Err(Snapshot().error)
      ensures Snapshot().Ok? ==> r == Ok(Select(tables.value.mangas, MangaKey, name))
    {
      var s := Snapshot();
      if s.Err? {
        return Err(s.error);
      }
      return Ok(Select(s.value.mangas, MangaKey, name));
    }

    // -------------------------------------------------------------------
    // Writes

    /** `exc_query` of one statement, with the wrapper's error handling. */
    method Execute(s: Statement) returns (done: Result<bool, Fault>)
      requires Valid()
      modifies this
      ensures Valid() && conn == old(conn)
      ensures (done, tables) == WriteOutcome(old(conn), old(tables), s)
    {
      match conn
      case Unset => return Err(NoConnection);
      case Closed => return Ok(false);
      case Open =>
        if tables.None? {
          return Ok(false);
        }
        var next := Apply(tables.value, s);
        if next.None? {
          return Ok(false);
        }
        ApplyKeepsKeysUnique(tables.value, s);
        tables := next;
        return Ok(true);
    }

    method InsertChat(id: int, name: string) returns (done: Result<bool, Fault>)
      requires Valid()
      modifies this
      ensures Valid() && conn == old(conn)
      ensures (done, tables) == WriteOutcome(old(conn), old(tables), Statement.InsertChat(id, name))
    {
      done := Execute(Statement.InsertChat(id, name));
    }

    method InsertSuscription(chat: int, manga: string, last: string) returns (done: Result<bool, Fault>)
      requires Valid()
      modifies this
      ensures Valid() && conn == old(conn)
      ensures (done, tables) == WriteOutcome(old(conn), old(tables), Statement.InsertSuscription(chat, manga, last))
    {
      done := Execute(Statement.InsertSuscription(chat, manga, last));
    }

    method InsertMangaChapter(name: string, number: string, url: string, date: string, manga: string)
      returns (done: Result<bool, Fault>)
      requires Valid()
      modifies this
      ensures Valid() && conn == old(conn)
      ensures (done, tables) == WriteOutcome(old(conn), old(tables), Statement.InsertMangaChapter(name, number, url, date, manga))
    {
      done := Execute(Statement.InsertMangaChapter(name, number, url, date, manga));
    }

    method InsertManga(name: string, url: string, lastChapter: string) returns (done: Result<bool, Fault>)
      requires Valid()
      modifies this
      ensures Valid() && conn == old(conn)
      ensures (done, tables) == WriteOutcome(old(conn), old(tables), Statement.InsertManga(name, url, lastChapter))
    {
      done := Execute(Statement.InsertManga(name, url, lastChapter));
    }

    method DeleteChat(id: int) returns (done: Result<bool, Fault>)
      requires Valid()
      modifies this
      ensures Valid() && conn == old(conn)
      ensures (done, tables) == WriteOutcome(old(conn), old(tables), Statement.DeleteChat(id))
    {
      done := Execute(Statement.DeleteChat(id));
    }

    method DeleteSuscription(chat: int, manga: string) returns (done: Result<bool, Fault>)
      requires Valid()
      modifies this
      ensures Valid() && conn == old(conn)
      ensures (done, tables) == WriteOutcome(old(conn), old(tables), Statement.DeleteSuscription(chat, manga))
    {
      done := Execute(Statement.DeleteSuscription(chat, manga));
    }

    method DeleteMangaChapter(manga: string, name: string) returns (done: Result<bool, Fault>)
      requires Valid()
      modifies this
      ensures Valid() && conn == old(conn)
      ensures (done, tables) == WriteOutcome(old(conn), old(tables), Statement.DeleteMangaChapter(manga, name))
    {
      done := Execute(Statement.DeleteMangaChapter(manga, name));
    }

    method DeleteManga(name: string) returns (done: Result<bool, Fault>)
      requires Valid()
      modifies this
      ensures Valid() && conn == old(conn)
      ensures (done, tables) == WriteOutcome(old(conn), old(tables), Statement.DeleteManga(name))
    {
      done := Execute(Statement.DeleteManga(name));
    }

    method UpdateChatName(id: int, name: string) returns (done: Result<bool, Fault>)
      requires Valid()
      modifies this
      ensures Valid() && conn == old(conn)
      ensures (done, tables) == WriteOutcome(old(conn), old(tables), Statement.UpdateChatName(id, name))
    {
      done := Execute(Statement.UpdateChatName(id, name));
    }

    method UpdateSuscriptionLast(chat: int, manga: string, last: string) returns (done: Result<bool, Fault>)
      requires Valid()
      modifies this
      ensures Valid() && conn == old(conn)
      ensures (done, tables) == WriteOutcome(old(conn), old(tables), Statement.UpdateSuscriptionLast(chat, manga, last))
    {
      done := Execute(Statement.UpdateSuscriptionLast(chat, manga, last));
    }

    method UpdateManga(name: string, lastChapter: string) returns (done: Result<bool, Fault>)
      requires Valid()
      modifies this
      ensures Valid() && conn == old(conn)
      ensures (done, tables) == WriteOutcome(old(conn), old(tables), Statement.UpdateManga(name, lastChapter))
    {
      done := Execute(Statement.UpdateManga(name, lastChapter));
    }
  }

  // ---------------------------------------------------------------------
  // Lemmas

  /** Every successful statement keeps every primary key unique. */
  lemma ApplyKeepsKeysUnique(t: Tables, s: Statement)
    requires t.KeysUnique() && Apply(t, s).Some?
    ensures Apply(t, s).value.KeysUnique()
  {
    match s
    case InsertChat(id, name) => AppendUnique(t.chats, ChatKey, ChatRow(id, name));
    case InsertSuscription(chat, manga, last) =>
      AppendUnique(t.suscriptions, SuscriptionKey, SuscriptionRow(chat, manga, last));
    case InsertMangaChapter(name, number, url, date, manga) =>
      AppendUnique(t.chapters, ChapterKey, ChapterRow(name, number, url, date, manga));
    case InsertManga(name, url, lastChapter) =>
      AppendUnique(t.mangas, MangaKey, MangaRow(name, url, lastChapter));
    case DeleteChat(id) => WithoutKeepsUnique(t.chats, ChatKey, id);
    case DeleteSuscription(chat, manga) =>
      WithoutKeepsUnique(t.suscriptions, SuscriptionKey, (chat, manga));
    case DeleteMangaChapter(manga, name) =>
      WithoutKeepsUnique(t.chapters, ChapterKey, (manga, name));
    case DeleteManga(name) => WithoutKeepsUnique(t.mangas, MangaKey, name);
    case UpdateChatName(id, name) =>
      UpdateKeepsUnique(t.chats, ChatKey, id, WithName(name));
    case UpdateSuscriptionLast(chat, manga, last) =>
      UpdateKeepsUnique(t.suscriptions, SuscriptionKey, (chat, manga), WithLast(last));
    case UpdateManga(name, lastChapter) =>
      UpdateKeepsUnique(t.mangas, MangaKey, name, WithLastChapter(lastChapter));
  }

  /** A successful insert adds exactly the new row after the rows already
      in its table (insertion order, which is what a full scan of every
      table but `chats` returns). */
  lemma InsertAppendsRow(t: Tables, s: Statement)
    requires s.IsInsert() && Apply(t, s).Some?
    ensures var u := Apply(t, s).value;
      match s
      case InsertChat(id, name) => u.chats == t.chats + [ChatRow(id, name)]
      case InsertSuscription(chat, manga, last) =>
        u.suscriptions == t.suscriptions + [SuscriptionRow(chat, manga, last)]
      case InsertMangaChapter(name, number, url, date, manga) =>
        u.chapters == t.chapters + [ChapterRow(name, number, url, date, manga)]
      case InsertManga(name, url, lastChapter) => u.mangas == t.mangas + [MangaRow(name, url, lastChapter)]
      case _ => false
  {
  }

  /** A chapter row read back after its insert has the fields it was
      inserted with: it is the last row of `read_manga_chapters`, and
      `read_manga_chapter_by_manga_name` for its manga returns the rows it
      returned before with the new one placed at its name, every other row
      keeping its relative order. */
  lemma InsertedChapterReadsBack(t: Tables, name: string, number: string, url: string, date: string, manga: string)
    requires UniqueKeys(t.chapters, ChapterKey)
    requires Apply(t, InsertMangaChapter(name, number, url, date, manga)).Some?
    ensures var u := Apply(t, InsertMangaChapter(name, number, url, date, manga)).value;
      var row := ChapterRow(name, number, url, date, manga);
      var before := ChaptersOfManga(t.chapters, manga);
      && u.chapters[|u.chapters| - 1] == row
      && ChaptersOfManga(u.chapters, manga) == InsertBy(row, before, ChapterName)
      && exists k :: 0 <= k <= |before| && ChaptersOfManga(u.chapters, manga) == before[..k] + [row] + before[k..]
  {
    var row := ChapterRow(name, number, url, date, manga);
    var u := t.chapters + [row];
    var rows := Select(t.chapters, ChapterManga, manga);
    SelectAppend(t.chapters, row, ChapterManga, manga);
    AppendUnique(t.chapters, ChapterKey, row);
    SelectMembers(u, ChapterManga, manga);
    forall x, y | x in rows + [row] && y in rows + [row] && ChapterName(x) == ChapterName(y)
      ensures x == y
    {
      UniqueKeysIdentify(u, ChapterKey, x, y);
    }
    SortBySnoc(rows, row, ChapterName);
    InsertBySplits(row, ChaptersOfManga(t.chapters, manga), ChapterName);
  }

  /** The rows a keyed read returns are determined by the rows it selects:
      with the primary key unique, the name-ordered arrangement is the only
      one, whatever order the rows were inserted in. */
  lemma ChaptersOfMangaIsTheOrderedSelection(chapters: seq<ChapterRow>, manga: string, s: seq<ChapterRow>)
    requires UniqueKeys(chapters, ChapterKey)
    requires SortedBy(s, ChapterName) && multiset(s) == multiset(Select(chapters, ChapterManga, manga))
    ensures s == ChaptersOfManga(chapters, manga)
  {
    var r := ChaptersOfManga(chapters, manga);
    ChaptersOfMangaIsOrdered(chapters, manga);
    forall x, y | x in r && y in r && ChapterName(x) == ChapterName(y)
      ensures x == y
    {
      UniqueKeysIdentify(chapters, ChapterKey, x, y);
    }
    SortedByIsUnique(r, s, ChapterName);
  }

  /** Likewise for the subscriptions of a chat, in manga order. */
  lemma SuscriptionsOfChatIsTheOrderedSelection(suscriptions: seq<SuscriptionRow>, chat: int, s: seq<SuscriptionRow>)
    requires UniqueKeys(suscriptions, SuscriptionKey)
    requires SortedBy(s, SuscriptionManga) && multiset(s) == multiset(Select(suscriptions, SuscriptionChat, chat))
    ensures s == SuscriptionsOfChat(suscriptions, chat)
  {
    var r := SuscriptionsOfChat(suscriptions, chat);
    SuscriptionsOfChatIsOrdered(suscriptions, chat);
    forall x, y | x in r && y in r && SuscriptionManga(x) == SuscriptionManga(y)
      ensures x == y
    {
      UniqueKeysIdentify(suscriptions, SuscriptionKey, x, y);
    }
    SortedByIsUnique(r, s, SuscriptionManga);
  }

  /** `delete_suscription(chat, manga)` removes exactly the row with that
      key and keeps every other row in order. */
  lemma DeleteSuscriptionRemovesOnlyItsRow(t: Tables, chat: int, manga: string)
    requires t.KeysUnique() && Has(t.suscriptions, SuscriptionKey, (chat, manga))
    ensures var i := FirstIndex(t.suscriptions, SuscriptionKey, (chat, manga)).value;
      Apply(t, DeleteSuscription(chat, manga))
        == Some(t.(suscriptions := t.suscriptions[..i] + t.suscriptions[i + 1..]))
  {
    var i := FirstIndex(t.suscriptions, SuscriptionKey, (chat, manga)).value;
    WithoutUnique(t.suscriptions, SuscriptionKey, i);
  }

  /** `update_suscription_last` changes the `last` field of the one
      matching row and nothing else. */
  lemma UpdateSuscriptionLastChangesOnlyLast(t: Tables, chat: int, manga: string, last: string)
    requires t.KeysUnique() && Has(t.suscriptions, SuscriptionKey, (chat, manga))
    ensures var i := FirstIndex(t.suscriptions, SuscriptionKey, (chat, manga)).value;
      Apply(t, UpdateSuscriptionLast(chat, manga, last))
        == Some(t.(suscriptions := t.suscriptions[i := t.suscriptions[i].(last := last)]))
  {
    var i := FirstIndex(t.suscriptions, SuscriptionKey, (chat, manga)).value;
    var f := WithLast(last);
    assert SuscriptionKey(t.suscriptions[i]) == (chat, manga);
    UpdateUnique(t.suscriptions, SuscriptionKey, i, f);
    var u := Update(t.suscriptions, SuscriptionKey, (chat, manga), f);
    assert u == t.suscriptions[i := t.suscriptions[i].(last := last)];
    ApplyUpdate(t, UpdateSuscriptionLast(chat, manga, last));
  }

  /** `update_manga` changes `last_chapter` of the named manga and nothing
      else; in particular its url stays. */
  lemma UpdateMangaChangesOnlyLastChapter(t: Tables, name: string, lastChapter: string)
    requires t.KeysUnique() && Has(t.mangas, MangaKey, name)
    ensures var i := FirstIndex(t.mangas, MangaKey, name).value;
      Apply(t, UpdateManga(name, lastChapter))
        == Some(t.(mangas := t.mangas[i := t.mangas[i].(lastChapter := lastChapter)]))
  {
    var i := FirstIndex(t.mangas, MangaKey, name).value;
    var f := WithLastChapter(lastChapter);
    assert MangaKey(t.mangas[i]) == name;
    UpdateUnique(t.mangas, MangaKey, i, f);
    var u := Update(t.mangas, MangaKey, name, f);
    assert u == t.mangas[i := t.mangas[i].(lastChapter := lastChapter)];
    ApplyUpdate(t, UpdateManga(name, lastChapter));
  }

  /** What a successful UPDATE leaves in its table. */
  lemma ApplyUpdate(t: Tables, s: Statement)
    requires s.UpdateSuscriptionLast? || s.UpdateManga?
    requires KeyPresent(t, s)
    ensures s.UpdateSuscriptionLast? ==> (Apply(t, s) ==
      Some(t.(suscriptions := Update(t.suscriptions, SuscriptionKey, (s.chat, s.manga), WithLast(s.last)))))
    ensures s.UpdateManga? ==> (Apply(t, s) ==
      Some(t.(mangas := Update(t.mangas, MangaKey, s.name, WithLastChapter(s.lastChapter)))))
  {
  }
}
