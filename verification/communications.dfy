/** Chats and the subscriptions they hold, and the list helpers that search
    them, add to them and remove from them (src/domain/communications.py). */
module Communications {
  import opened Wrappers
  import opened Seqs
  import opened Lists
  import opened Model

  /** A chat the bot talks to. */
  datatype Chat = Chat(id: int, name: string)

  /** A chat's subscription to a manga; `last` is the name of the last
      chapter the chat was told about ("" before the first notice). */
  datatype Suscription = Suscription(chat: Chat, manga: Manga, last: string)

  function ChatId(c: Chat): int { c.id }
  function SubChatId(s: Suscription): int { s.chat.id }
  function SubMangaName(s: Suscription): string { s.manga.name }
  /** What identifies a subscription: its chat's id and its manga's name. */
  function SubKey(s: Suscription): (int, string) { (s.chat.id, s.manga.name) }

  // ---------------------------------------------------------------------
  // Searches

  /** `search_chat_by_id`: the first chat with the target's id. */
  method SearchChatById(chats: seq<Chat>, target: Chat) returns (item: Option<Chat>)
    ensures item.Some? <==> Has(chats, ChatId, target.id)
    ensures item.Some? ==> item.value == chats[FirstIndex(chats, ChatId, target.id).value]
  {
    var i := 0;
    while i < |chats|
      invariant i <= |chats|
      invariant forall j :: 0 <= j < i ==> chats[j].id != target.id
    {
      if chats[i].id == target.id {
        return Some(chats[i]);
      }
      i := i + 1;
    }
    return None;
  }

  /** `search_suscriptions_by_chat_id`: every subscription of the chat, in
      list order. */
  method SearchSuscriptionsByChatId(subs: seq<Suscription>, chat: Chat) returns (items: seq<Suscription>)
    ensures items == Select(subs, SubChatId, chat.id)
  {
    items := [];
    var i := 0;
    while i < |subs|
      invariant i <= |subs|
      invariant items == Select(subs[..i], SubChatId, chat.id)
    {
      SelectAppend(subs[..i], subs[i], SubChatId, chat.id);
      assert subs[..i + 1] == subs[..i] + [subs[i]];
      if subs[i].chat.id == chat.id {
        items := items + [subs[i]];
      }
      i := i + 1;
    }
    assert subs[..i] == subs;
  }

  /** `search_suscriptions_by_manga`: every subscription to a manga of that
      name, in list order. */
  method SearchSuscriptionsByManga(subs: seq<Suscription>, manga: Manga) returns (items: seq<Suscription>)
    ensures items == Select(subs, SubMangaName, manga.name)
  {
    items := [];
    var i := 0;
    while i < |subs|
      invariant i <= |subs|
      invariant items == Select(subs[..i], SubMangaName, manga.name)
    {
      SelectAppend(subs[..i], subs[i], SubMangaName, manga.name);
      assert subs[..i + 1] == subs[..i] + [subs[i]];
      if subs[i].manga.name == manga.name {
        items := items + [subs[i]];
      }
      i := i + 1;
    }
    assert subs[..i] == subs;
  }

  // ---------------------------------------------------------------------
  // In-place edits

  /** `add_chat`: appends a chat with a non-zero id that is not listed yet. */
  method AddChat(chats: ListRef?<Chat>, chat: Option<Chat>) returns (created: bool)
    modifies chats
    ensures created <==> (chats != null && chat.Some? && chat.value.id != 0
      && !Has(old(chats.items), ChatId, chat.value.id))
    ensures chats != null ==>
      chats.items == if created then old(chats.items) + [chat.value] else old(chats.items)
  {
    if chats == null || chat.None? || chat.value.id == 0 {
      return false;
    }
    var existing := SearchChatById(chats.items, chat.value);
    if existing.Some? {
      return false;
    }
    chats.Append(chat.value);
    return true;
  }

  /** `del_chat`: removes the first chat with the given chat's id; a None
      list fails while being searched. */
  method DelChat(chats: ListRef?<Chat>, chat: Option<Chat>) returns (deleted: bool)
    modifies chats
    ensures deleted <==> (chats != null && chat.Some? && chat.value.id != 0
      && Has(old(chats.items), ChatId, chat.value.id))
    ensures chats != null && !deleted ==> chats.items == old(chats.items)
    ensures deleted ==>
      var i := FirstIndex(old(chats.items), ChatId, chat.value.id).value;
      chats.items == old(chats.items)[..i] + old(chats.items)[i + 1..]
  {
    if chat.None? || chat.value.id == 0 || chats == null {
      return false;
    }
    var target := SearchChatById(chats.items, chat.value);
    if target.None? {
      return false;
    }
    FirstKeyIsFirstEqual(chats.items, ChatId, chat.value.id,
                         FirstIndex(chats.items, ChatId, chat.value.id).value);
    chats.Remove(target.value);
    return true;
  }

  /** `add_suscription`: appends a subscription with an empty `last` unless
      the chat already follows a manga of that name. */
  method AddSuscription(subs: ListRef?<Suscription>, chat: Option<Chat>, manga: Option<Manga>)
    returns (created: bool)
    modifies subs
    ensures created <==> (subs != null && chat.Some? && chat.value.id != 0
      && manga.Some? && manga.value.name != ""
      && !Has(old(subs.items), SubKey, (chat.value.id, manga.value.name)))
    ensures subs != null ==>
      subs.items == if created then old(subs.items) + [Suscription(chat.value, manga.value, "")]
                    else old(subs.items)
  {
    if chat.None? || chat.value.id == 0 {
      return false;
    }
    if manga.None? || manga.value.name == "" {
      return false;
    }
    if subs == null {
      return false;
    }
    var id, name := chat.value.id, manga.value.name;
    var ofChat := SearchSuscriptionsByChatId(subs.items, chat.value);
    var i := 0;
    while i < |ofChat|
      invariant i <= |ofChat|
      invariant forall j :: 0 <= j < i ==> ofChat[j].manga.name != name
    {
      if ofChat[i].manga.name == name {
        assert ofChat[i] in subs.items && ofChat[i].chat.id == id;
        ghost var k :| 0 <= k < |subs.items| && subs.items[k] == ofChat[i];
        assert SubKey(subs.items[k]) == (id, name);
        return false;
      }
      i := i + 1;
    }
    forall j | 0 <= j < |subs.items|
      ensures SubKey(subs.items[j]) != (id, name)
    {
      if subs.items[j].chat.id == id {
        SelectComplete(subs.items, SubChatId, id, j);
      }
    }
    subs.Append(Suscription(chat.value, manga.value, ""));
    return true;
  }

  /** `del_suscription`: removes the first subscription of that chat to a
      manga of that name. */
  method DelSuscription(subs: ListRef?<Suscription>, chat: Option<Chat>, manga: Option<Manga>)
    returns (deleted: bool)
    modifies subs
    ensures deleted <==> (subs != null && chat.Some? && chat.value.id != 0
      && manga.Some? && manga.value.name != ""
      && Has(old(subs.items), SubKey, (chat.value.id, manga.value.name)))
    ensures subs != null && !deleted ==> subs.items == old(subs.items)
    ensures deleted ==>
      var i := FirstIndex(old(subs.items), SubKey, (chat.value.id, manga.value.name)).value;
      subs.items == old(subs.items)[..i] + old(subs.items)[i + 1..]
  {
    if chat.None? || chat.value.id == 0 {
      return false;
    }
    if manga.None? || manga.value.name == "" {
      return false;
    }
    if subs == null {
      return false;
    }
    var key := (chat.value.id, manga.value.name);
    var i := 0;
    while i < |subs.items|
      invariant i <= |subs.items|
      invariant forall j :: 0 <= j < i ==> SubKey(subs.items[j]) != key
    {
      if subs.items[i].chat.id == key.0 && subs.items[i].manga.name == key.1 {
        FirstKeyIsFirstEqual(subs.items, SubKey, key, i);
        subs.Remove(subs.items[i]);
        return true;
      }
      i := i + 1;
    }
    return false;
  }

  // ---------------------------------------------------------------------
  // Lemmas

  /** Filtering by chat and then by manga name, as `add_suscription`
      searches, selects exactly the subscriptions with both keys. */
  lemma {:induction false} SelectBothKeys(subs: seq<Suscription>, id: int, name: string)
    ensures Select(Select(subs, SubChatId, id), SubMangaName, name) == Select(subs, SubKey, (id, name))
  {
    if subs != [] {
      SelectBothKeys(subs[1..], id, name);
      var head := if subs[0].chat.id == id then [subs[0]] else [];
      assert Select(subs, SubChatId, id) == head + Select(subs[1..], SubChatId, id);
      SelectConcat(head, Select(subs[1..], SubChatId, id), SubMangaName, name);
    }
  }

  /** Filtering distributes over concatenation. */
  lemma {:induction false} SelectConcat<T, K>(a: seq<T>, b: seq<T>, key: T -> K, k: K)
    ensures Select(a + b, key, k) == Select(a, key, k) + Select(b, key, k)
  {
    if a != [] {
      assert (a + b)[1..] == a[1..] + b;
      SelectConcat(a[1..], b, key, k);
    } else {
      assert a + b == b;
    }
  }

  /** Adding a subscription never makes two of them share a chat and a
      manga name. */
  lemma AddSuscriptionKeepsKeysUnique(subs: seq<Suscription>, s: Suscription)
    requires UniqueKeys(subs, SubKey) && !Has(subs, SubKey, SubKey(s))
    ensures UniqueKeys(subs + [s], SubKey)
  {
    AppendUnique(subs, SubKey, s);
  }
}
