/** Paginated inline keyboards and message text (src/app/messages.py): a
    sorted list of names is cut into pages, each page becomes a row of item
    buttons plus a row of navigation buttons, and a button's callback data
    is later split on ':' to find the selected name again. */
module Messages {
  import opened Wrappers
  import opened Lists
  import opened Decimal
  import opened Order

  function Min(a: int, b: int): int { if a <= b then a else b }

  // ---------------------------------------------------------------------
  // `list.sort` on a list of names

  /** The names are in Python's string order. */
  predicate Sorted(s: seq<string>) {
    SortedBy(s, Id)
  }

  /** The arrangement `list.sort` leaves the names in. */
  function Sort(s: seq<string>): seq<string> {
    SortBy(s, Id)
  }

  /** Only one arrangement of a multiset of strings is sorted, so whatever
      algorithm `list.sort` runs, it leaves `Sort(s)`. */
  lemma SortedIsUnique(a: seq<string>, b: seq<string>)
    requires Sorted(a) && Sorted(b) && multiset(a) == multiset(b)
    ensures a == b
  {
    assert KeyIdentifies(a, Id);
    SortedByIsUnique(a, b, Id);
  }

  /** Sorting a sorted list changes nothing. */
  lemma SortIdempotent(s: seq<string>)
    ensures Sort(Sort(s)) == Sort(s)
  {
    SortByIsSortedPermutation(s, Id);
    SortByIsSortedPermutation(Sort(s), Id);
    SortedIsUnique(Sort(Sort(s)), Sort(s));
  }

  /** `items.sort()` on the caller's list. */
  method SortInPlace(items: ListRef<string>)
    modifies items
    ensures items.items == Sort(old(items.items))
  {
    items.items := Sort(items.items);
  }

  // ---------------------------------------------------------------------
  // Pages

  /** What `_page_items` returns: the rows (the page's items, then the
      navigation symbols) and the page actually rendered. */
  datatype Paged = Paged(rows: seq<seq<string>>, page: nat)

  /** The page `_page_items` renders when asked for `page`. */
  function ClampedPage(count: nat, k: int, page: int): (p: nat)
    requires k > 0
    ensures p * k <= count / k * k
  {
    var p := if page <= 0 then 0 else Min(page, count / k);
    assert p * k <= count / k * k by {
      MultiplyMonotone(p, count / k, k);
    }
    p
  }

  lemma MultiplyMonotone(a: int, b: int, k: nat)
    ensures a <= b ==> a * k <= b * k
  {
    assert b * k - a * k == (b - a) * k;
  }

  /** Euclidean division by `k` undoes multiplication by `k`. */
  lemma DivideMultiple(a: int, k: int)
    requires k > 0
    ensures a * k / k == a
  {
    var q, r := a * k / k, a * k % k;
    assert a * k == q * k + r && 0 <= r < k;
    assert (a - q) * k == r;
    if a - q >= 1 {
      MultiplyMonotone(1, a - q, k);
    } else if a - q <= -1 {
      MultiplyMonotone(a - q, -1, k);
    }
  }

  /** Division by `k` rounds down to a multiple of `k`. */
  lemma DivideBounds(n: int, k: int)
    requires k > 0
    ensures n / k * k <= n < n / k * k + k
  {
    assert n == n / k * k + n % k;
  }

  lemma DivideMonotone(a: int, b: int, k: int)
    requires k > 0 && a <= b
    ensures a / k <= b / k
  {
    DivideBounds(a, k);
    DivideBounds(b, k);
    assert (b / k + 1) * k == b / k * k + k;
    MultiplyMonotone(b / k + 1, a / k, k);
  }

  /** The page arithmetic of `_page_items`: the first item shown is
      `min(max(0, page) * k, len // k * k)`, and the page reported is that
      position divided by `k`. */
  lemma PageStart(count: nat, k: int, page: int)
    requires k > 0
    ensures var start := Min((if page < 0 then 0 else page) * k, count / k * k);
      start / k == ClampedPage(count, k, page) && start == start / k * k && start <= count
  {
    var actual := if page < 0 then 0 else page;
    DivideMultiple(count / k, k);
    DivideMultiple(actual, k);
    DivideBounds(count, k);
    if actual <= count / k {
      MultiplyMonotone(actual, count / k, k);
    } else {
      MultiplyMonotone(count / k, actual, k);
    }
  }

  /** `_page_items(items, k, page)`. A negative page is page 0; a page
      past the end is the last page, which is empty when `k` divides the
      number of items. The navigation row always offers "X" (close), "<"
      exactly when there is an earlier page and ">" exactly when items
      remain after this one. */
  function PageItems(items: seq<string>, k: int, page: int): (r: Paged)
    requires k > 0
    ensures |r.rows| == 2
    ensures r.page == ClampedPage(|items|, k, page)
    ensures r.page * k <= |items|
    ensures r.rows[0] == items[r.page * k .. Min(r.page * k + k, |items|)]
    ensures "X" in r.rows[1]
    ensures r.rows[1] == (if r.page > 0 then ["<"] else []) + ["X"]
      + (if r.page * k + k < |items| then [">"] else [])
  {
    var actual := if page < 0 then 0 else page;
    var limit := |items| / k * k;
    var start := Min(actual * k, limit);
    var end := Min(start + k, |items|);
    var p := start / k;
    PageStart(|items|, k, page);
    if p == 0 && end == |items| then Paged([items, ["X"]], p)
    else if p == 0 then Paged([items[start..end], ["X", ">"]], p)
    else if p > 0 && end == |items| then Paged([items[start..end], ["<", "X"]], p)
    else Paged([items[start..end], ["<", "X", ">"]], p)
  }

  /** Asking again for the page that was rendered renders it again. */
  lemma PageItemsIdempotent(items: seq<string>, k: int, page: int)
    requires k > 0
    ensures PageItems(items, k, PageItems(items, k, page).page) == PageItems(items, k, page)
  {
    var p := PageItems(items, k, page).page;
    DivideMultiple(|items| / k, k);
    assert p <= |items| / k;
  }

  /** A page past the end is clamped to the last page, which is empty when
      `k` divides the number of items. */
  lemma PastTheEndIsEmptyLastPage(items: seq<string>, k: int, page: int)
    requires k > 0 && |items| % k == 0 && page >= |items| / k
    ensures PageItems(items, k, page).page == |items| / k
    ensures PageItems(items, k, page).rows[0] == []
  {
    DivideBounds(|items|, k);
  }

  /** The ">" button only leads to a page that has items. */
  lemma NextPageHasItems(items: seq<string>, k: int, page: int)
    requires k > 0 && ">" in PageItems(items, k, page).rows[1]
    ensures var p := PageItems(items, k, page).page;
      PageItems(items, k, p + 1).page == p + 1 && PageItems(items, k, p + 1).rows[0] != []
  {
    var p := PageItems(items, k, page).page;
    assert p * k + k < |items|;
    assert (p + 1) * k == p * k + k;
    DivideBounds(|items|, k);
    assert p + 1 <= |items| / k by {
      MultiplyMonotone(|items| / k + 1, p + 1, k);
      assert (|items| / k + 1) * k == |items| / k * k + k;
    }
  }

  /** Every item is on exactly the page its position says, so paging
      through all pages shows every item. */
  lemma ItemOnItsPage(items: seq<string>, k: int, n: nat)
    requires k > 0 && n < |items|
    ensures var r := PageItems(items, k, n / k);
      r.page == n / k && n - r.page * k < |r.rows[0]| && r.rows[0][n - r.page * k] == items[n]
  {
    DivideBounds(n, k);
    DivideMonotone(n, |items|, k);
    DivideMultiple(n / k, k);
    assert ClampedPage(|items|, k, n / k) == n / k;
  }

  // ---------------------------------------------------------------------
  // Callback data

  /** `s.split(sep)`: the pieces between separators, "" included. */
  function Split(s: string, sep: char): (parts: seq<string>)
    ensures |parts| >= 1
  {
    if s == [] then [""]
    else
      var rest := Split(s[1..], sep);
      if s[0] == sep then [""] + rest else [[s[0]] + rest[0]] + rest[1..]
  }

  /** `sep.join(parts)`. */
  function Join(parts: seq<string>, sep: char): string {
    if parts == [] then ""
    else if |parts| == 1 then parts[0]
    else parts[0] + [sep] + Join(parts[1..], sep)
  }

  lemma {:induction false} SplitWithout(a: string, sep: char)
    requires sep !in a
    ensures Split(a, sep) == [a]
  {
    if a != [] {
      SplitWithout(a[1..], sep);
      assert a == [a[0]] + a[1..];
    }
  }

  lemma {:induction false} SplitAtFirst(a: string, sep: char, rest: string)
    requires sep !in a
    ensures Split(a + [sep] + rest, sep) == [a] + Split(rest, sep)
  {
    if a == [] {
      assert (a + [sep] + rest)[1..] == rest;
    } else {
      assert (a + [sep] + rest)[1..] == a[1..] + [sep] + rest;
      SplitAtFirst(a[1..], sep, rest);
      assert a == [a[0]] + a[1..];
    }
  }

  /** Splitting undoes joining when no part holds the separator. */
  lemma {:induction false} SplitJoin(parts: seq<string>, sep: char)
    requires parts != []
    requires forall i :: 0 <= i < |parts| ==> sep !in parts[i]
    ensures Split(Join(parts, sep), sep) == parts
  {
    if |parts| == 1 {
      SplitWithout(parts[0], sep);
    } else {
      SplitJoin(parts[1..], sep);
      SplitAtFirst(parts[0], sep, Join(parts[1..], sep));
      assert parts == [parts[0]] + parts[1..];
    }
  }

  /** The callback data of a button: `source:middle:page`. */
  function Callback(source: string, middle: string, page: nat): string {
    source + ":" + middle + ":" + NatToString(page)
  }

  /** What the callback handlers read from callback data: the piece after
      the first ':' as the selection, the last piece as the page number. */
  function Selection(data: string): Option<string> {
    var parts := Split(data, ':');
    if |parts| >= 2 then Some(parts[1]) else None
  }

  function PageOf(data: string): Option<nat> {
    var parts := Split(data, ':');
    ParseNat(parts[|parts| - 1])
  }

  lemma DigitsHaveNoColon(s: string)
    requires AllDigits(s)
    ensures ':' !in s
  {
  }

  lemma CallbackIsJoin(source: string, middle: string, page: nat)
    ensures Callback(source, middle, page) == Join([source, middle, NatToString(page)], ':')
  {
    var parts := [source, middle, NatToString(page)];
    assert parts[1..] == [middle, NatToString(page)];
    assert parts[1..][1..] == [NatToString(page)];
    var n := NatToString(page);
    assert Join(parts[1..], ':') == middle + [':'] + n;
    assert Join(parts, ':') == source + [':'] + (middle + [':'] + n);
    assert ":" == [':'];
  }

  /** For a source without ':', the handlers read back the middle piece and
      the page of the callback data. */
  lemma CallbackRoundTrip(source: string, middle: string, page: nat)
    requires ':' !in source && ':' !in middle
    ensures Split(Callback(source, middle, page), ':') == [source, middle, NatToString(page)]
    ensures Selection(Callback(source, middle, page)) == Some(middle)
    ensures PageOf(Callback(source, middle, page)) == Some(page)
  {
    DigitsHaveNoColon(NatToString(page));
    CallbackIsJoin(source, middle, page);
    SplitJoin([source, middle, NatToString(page)], ':');
    NatToStringRoundTrip(page);
  }

  // ---------------------------------------------------------------------
  // Keyboard

  /** An inline keyboard button: the label shown and the callback data. */
  datatype Button = Button(text: string, data: string)

  const MaxChars := 40

  /** A label cut to its first 40 characters. */
  function Label(name: string): (text: string)
    ensures |text| <= MaxChars && |text| <= |name| && text == name[..|text|]
    ensures |name| <= MaxChars ==> text == name
  {
    name[..Min(MaxChars, |name|)]
  }

  /** Whether a row is laid out as navigation: it holds "<", ">" or "X". */
  predicate IsNavRow(row: seq<string>) {
    "<" in row || ">" in row || "X" in row
  }

  /** Navigation buttons carry their symbol in the callback data. */
  function NavButtons(source: string, row: seq<string>, page: nat): (bs: seq<Button>)
    ensures |bs| == |row|
    ensures forall i :: 0 <= i < |row| ==> bs[i] == Button(Label(row[i]), Callback(source, row[i], page))
  {
    seq(|row|, i requires 0 <= i < |row| => Button(Label(row[i]), Callback(source, row[i], page)))
  }

  /** Item buttons carry their position within the page. */
  function ItemButtons(source: string, row: seq<string>, page: nat): (bs: seq<Button>)
    ensures |bs| == |row|
    ensures forall i :: 0 <= i < |row| ==> bs[i] == Button(Label(row[i]), Callback(source, NatToString(i), page))
  {
    seq(|row|, i requires 0 <= i < |row| => Button(Label(row[i]), Callback(source, NatToString(i), page)))
  }

  /** One keyboard row, chosen by its contents as the code chooses it. */
  function RowButtons(source: string, row: seq<string>, page: nat): seq<Button> {
    if IsNavRow(row) then NavButtons(source, row, page) else ItemButtons(source, row, page)
  }

  /** The keyboard as `pg_text_inline_keyboard` lays it out: one button row
      per row of the page. */
  function Keyboard(source: string, paged: Paged): (kb: seq<seq<Button>>)
    ensures |kb| == |paged.rows|
    ensures forall n :: 0 <= n < |kb| ==> kb[n] == RowButtons(source, paged.rows[n], paged.page)
  {
    seq(|paged.rows|, n requires 0 <= n < |paged.rows| => RowButtons(source, paged.rows[n], paged.page))
  }

  /** The keyboard the handlers expect: the first row is always the items,
      the second always the navigation. */
  function IntendedKeyboard(source: string, paged: Paged): (kb: seq<seq<Button>>)
    requires |paged.rows| == 2
    ensures |kb| == 2
    ensures kb[0] == ItemButtons(source, paged.rows[0], paged.page)
    ensures kb[1] == NavButtons(source, paged.rows[1], paged.page)
  {
    [ItemButtons(source, paged.rows[0], paged.page), NavButtons(source, paged.rows[1], paged.page)]
  }

  /** `pg_text_inline_keyboard(source, items, max_line_blocks, page)`:
      sorts the caller's list, pages it and appends one button row per
      page row. */
  method PgTextInlineKeyboard(source: string, items: ListRef<string>, maxLineBlocks: int, page: int)
    returns (keyboard: seq<seq<Button>>)
    requires maxLineBlocks > 0
    modifies items
    ensures items.items == Sort(old(items.items))
    ensures keyboard == Keyboard(source, PageItems(items.items, maxLineBlocks, page))
  {
    SortInPlace(items);
    var paged := PageItems(items.items, maxLineBlocks, page);
    keyboard := BuildKeyboard(source, paged);
  }

  /** The loop of `pg_text_inline_keyboard`: one button row per page row. */
  method BuildKeyboard(source: string, paged: Paged) returns (keyboard: seq<seq<Button>>)
    ensures keyboard == Keyboard(source, paged)
  {
    keyboard := [];
    for n := 0 to |paged.rows|
      invariant |keyboard| == n
      invariant forall m :: 0 <= m < n ==> keyboard[m] == RowButtons(source, paged.rows[m], paged.page)
    {
      var buttons := RowKeyboard(source, paged.rows[n], paged.page);
      keyboard := keyboard + [buttons];
    }
  }

  /** The body of that loop: one row of buttons, styled by its content. */
  method RowKeyboard(source: string, row: seq<string>, page: nat) returns (buttons: seq<Button>)
    ensures buttons == RowButtons(source, row, page)
  {
    if "<" in row || ">" in row || "X" in row {
      buttons := NavButtons(source, row, page);
    } else {
      buttons := ItemButtons(source, row, page);
    }
  }

  /** The navigation row of any page is laid out as navigation. */
  lemma NavRowIsNav(items: seq<string>, k: int, page: int)
    requires k > 0
    ensures IsNavRow(PageItems(items, k, page).rows[1])
  {
  }

  /** While no item on the page is named "<", ">" or "X", the keyboard is
      the intended one. */
  lemma KeyboardIsIntended(source: string, items: seq<string>, k: int, page: int)
    requires k > 0
    requires !IsNavRow(PageItems(items, k, page).rows[0])
    ensures Keyboard(source, PageItems(items, k, page)) == IntendedKeyboard(source, PageItems(items, k, page))
  {
  }

  /** `pg_get_element_by_position`'s index into the list, Python style: a
      negative index counts from the end, anything else out of range
      raises IndexError (None). */
  function PyIndex(s: seq<string>, i: int): (r: Option<string>)
    ensures r.Some? <==> -|s| <= i < |s|
  {
    if 0 <= i < |s| then Some(s[i])
    else if -|s| <= i < 0 then Some(s[|s| + i])
    else None
  }

  /** The element `pg_get_element_by_position` returns from a sorted list:
      the page is clamped as for one item per page, then the position is
      counted from the start of that page of `maxLineBlocks` items. */
  function ElementAt(sorted: seq<string>, page: int, position: int, maxLineBlocks: int): Option<string> {
    PyIndex(sorted, PageItems(sorted, 1, page).page * maxLineBlocks + position)
  }

  /** `pg_get_element_by_position(items, page, position, max_line_blocks)`;
      None stands for the IndexError it raises. */
  method PgGetElementByPosition(items: ListRef<string>, page: int, position: int, maxLineBlocks: int)
    returns (element: Option<string>)
    modifies items
    ensures items.items == Sort(old(items.items))
    ensures element == ElementAt(items.items, page, position, maxLineBlocks)
  {
    SortInPlace(items);
    var paged := PageItems(items.items, 1, page);
    var i := paged.page * maxLineBlocks + position;
    if 0 <= i < |items.items| {
      element := Some(items.items[i]);
    } else if -|items.items| <= i < 0 {
      element := Some(items.items[|items.items| + i]);
    } else {
      element := None;
    }
  }

  /** The lookup clamps the page against the number of items, not the
      number of pages: a page within range is used as given. */
  lemma ElementAtPage(sorted: seq<string>, page: int, position: int, maxLineBlocks: int)
    requires 0 <= page <= |sorted|
    ensures ElementAt(sorted, page, position, maxLineBlocks) == PyIndex(sorted, page * maxLineBlocks + position)
  {
  }

  /** Round trip of the intended keyboard: a chat presses the i-th item
      button; the handler splits its callback data, reads the names again
      (in whatever order the store returns them) and looks the position up
      with `pg_get_element_by_position`, getting back exactly the item the
      button showed. */
  lemma {:induction false} ItemButtonSelectsItem(source: string, items: seq<string>, again: seq<string>,
                                                 k: int, page: int, i: nat)
    requires k > 0 && ':' !in source && multiset(again) == multiset(items)
    requires i < |PageItems(Sort(items), k, page).rows[0]|
    ensures var paged := PageItems(Sort(items), k, page);
      var data := IntendedKeyboard(source, paged)[0][i].data;
      Selection(data).Some? && ParseNat(Selection(data).value) == Some(i) && PageOf(data) == Some(paged.page)
      && ElementAt(Sort(again), paged.page, i, k) == Some(paged.rows[0][i])
  {
    var paged := PageItems(Sort(items), k, page);
    assert IntendedKeyboard(source, paged)[0][i].data == Callback(source, NatToString(i), paged.page);
    DigitsHaveNoColon(NatToString(i));
    CallbackRoundTrip(source, NatToString(i), paged.page);
    NatToStringRoundTrip(i);
    SortByIsSortedPermutation(items, Id);
    SortByIsSortedPermutation(again, Id);
    SortedIsUnique(Sort(again), Sort(items));
    PositionOnPage(Sort(items), k, page, i);
  }

  /** Looking a position up on the page just rendered gives the item shown
      at that position. */
  lemma PositionOnPage(sorted: seq<string>, k: int, page: int, i: nat)
    requires k > 0
    requires i < |PageItems(sorted, k, page).rows[0]|
    ensures var paged := PageItems(sorted, k, page);
      ElementAt(sorted, paged.page, i, k) == Some(paged.rows[0][i])
  {
    var paged := PageItems(sorted, k, page);
    var p := paged.page;
    MultiplyMonotone(1, k, p);
    assert p * k + i < |sorted| && paged.rows[0][i] == sorted[p * k + i];
    ElementAtPage(sorted, p, i, k);
  }

  /** A navigation button hands its symbol and the page to the handler. */
  lemma NavButtonSelectsSymbol(source: string, items: seq<string>, k: int, page: int, i: nat)
    requires k > 0 && ':' !in source
    requires i < |PageItems(items, k, page).rows[1]|
    ensures var paged := PageItems(items, k, page);
      var data := IntendedKeyboard(source, paged)[1][i].data;
      Selection(data) == Some(paged.rows[1][i]) && paged.rows[1][i] in ["<", "X", ">"]
      && PageOf(data) == Some(paged.page)
  {
    var paged := PageItems(items, k, page);
    assert IntendedKeyboard(source, paged)[1][i].data == Callback(source, paged.rows[1][i], paged.page);
    CallbackRoundTrip(source, paged.rows[1][i], paged.page);
  }

  /** An item named like a navigation symbol turns its whole page row into
      navigation buttons: with the items "A" and "X", the button for "A"
      carries the selection "A", which the handler's `int(selection)`
      cannot read, where the intended keyboard carries its position 0. */
  lemma NavNamedItemBreaksSelection()
    ensures var paged := PageItems(Sort(["X", "A"]), 3, 0);
      var data := Keyboard("tg_add_manga", paged)[0][0].data;
      data == Callback("tg_add_manga", "A", 0) && Selection(data) == Some("A") && ParseNat("A") == None
      && IntendedKeyboard("tg_add_manga", paged)[0][0].data == Callback("tg_add_manga", "0", 0)
  {
    assert NotAfter("A", "X");
    assert Sort(["X", "A"]) == InsertBy("X", ["A"], Id) == ["A", "X"];
    var paged := PageItems(["A", "X"], 3, 0);
    assert paged.page == 0;
    assert paged.rows[0] == ["A", "X"][0..2] == ["A", "X"];
    assert IsNavRow(paged.rows[0]);
    assert Keyboard("tg_add_manga", paged)[0] == NavButtons("tg_add_manga", ["A", "X"], 0);
    CallbackRoundTrip("tg_add_manga", "A", 0);
    assert !IsDigit('A');
    assert NatToString(0) == "0";
  }

  /** The handler example: three manga names and the callback data
      "tg_add_manga:2:0" select the third name in sorted order. */
  lemma ThirdMangaSelected()
    ensures var data := Callback("tg_add_manga", "2", 0);
      Selection(data) == Some("2") && ParseNat("2") == Some(2) && PageOf(data) == Some(0)
      && ElementAt(Sort(["Claymore", "Akira", "Berserk"]), 0, 2, 3) == Some("Claymore")
  {
    CallbackRoundTrip("tg_add_manga", "2", 0);
    assert NatToString(0) == "0";
    ParseTwo();
    SortThree();
    ElementAtPage(["Akira", "Berserk", "Claymore"], 0, 2, 3);
  }

  lemma ParseTwo()
    ensures ParseNat("2") == Some(2)
  {
    assert AllDigits("2") && Value("2") == 2;
  }

  lemma SortThree()
    ensures Sort(["Claymore", "Akira", "Berserk"]) == ["Akira", "Berserk", "Claymore"]
  {
    assert NotAfter("Akira", "Berserk") && !NotAfter("Claymore", "Akira") && !NotAfter("Claymore", "Berserk");
    assert Sort(["Berserk"]) == ["Berserk"];
    assert Sort(["Akira", "Berserk"]) == InsertBy("Akira", ["Berserk"], Id) == ["Akira", "Berserk"];
    assert InsertBy("Claymore", ["Berserk"], Id) == ["Berserk"] + InsertBy("Claymore", [], Id);
  }

  // ---------------------------------------------------------------------
  // Message text

  /** What `prepare_message` is given: a string, a list of strings (the
      language file's line lists), or another iterable of strings. */
  datatype Content = Text(text: string) | Lines(lines: seq<string>) | Words(words: seq<string>)

  /** `"".join(parts)`. */
  function Concat(parts: seq<string>): string {
    if parts == [] then "" else parts[0] + Concat(parts[1..])
  }

  /** `prepare_message(content)`; None stands for the IndexError an empty
      list raises when its first element is inspected. */
  function PrepareMessage(content: Content): (r: Option<string>)
    ensures content.Text? ==> r == Some(content.text)
    ensures content.Lines? ==> (r.None? <==> content.lines == [])
    ensures content.Words? ==> r.Some?
  {
    match content
    case Lines(lines) => if lines == [] then None else Some(Concat(lines))
    case Text(text) => Some(text)
    case Words(words) => Some(Join(words, ' '))
  }

  /** The lines of a list are kept whole and in order: each line starts
      where the previous ones end. */
  lemma {:induction false} ConcatAppend(parts: seq<string>, last: string)
    ensures Concat(parts + [last]) == Concat(parts) + last
  {
    if parts != [] {
      assert (parts + [last])[1..] == parts[1..] + [last];
      ConcatAppend(parts[1..], last);
    }
  }

  /** Words without spaces are recovered by splitting the message on
      spaces. */
  lemma WordsRoundTrip(words: seq<string>)
    requires words != []
    requires forall i :: 0 <= i < |words| ==> ' ' !in words[i]
    ensures Split(PrepareMessage(Words(words)).value, ' ') == words
  {
    SplitJoin(words, ' ');
  }
}
