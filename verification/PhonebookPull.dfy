/**
 Pulling a phonebook in windows: MaxListCount and ListStartOffset of section 5.1.4 of the Phone
 Book Access Profile 1.1.
 */
module PhonebookPull {
  import opened Text
  import opened PhonebookStore

  type guint16 = x: nat | x <= 0xFFFF

  const UNRESTRICTED: guint16 := 65535

  /** The contacts that have a vCard. */
  function ContactCards(rows: seq<ContactRow>): seq<string> {
    if rows == [] then []
    else
      var n := |rows| - 1;
      ContactCards(rows[..n]) + if rows[n].vcard.Some? then [rows[n].vcard.value] else []
  }

  /** The calls of a book that have a vCard. */
  function CallCards(rows: seq<CallRow>, book: Book): seq<string> {
    if rows == [] then []
    else
      var n := |rows| - 1;
      CallCards(rows[..n], book) +
      if Belongs(book, rows[n].logType) && rows[n].vcard.Some? then [rows[n].vcard.value] else []
  }

  function Min(a: nat, b: nat): nat {
    if a < b then a else b
  }

  /** `count` entries of a list from `from` on, all of them if the count says so. */
  function Window<T>(list: seq<T>, from: nat, count: nat): seq<T> {
    var a := Min(from, |list|);
    if count == UNRESTRICTED then list[a..] else list[a..Min(from + count, |list|)]
  }

  /** The numbered contact book: the owner is 0. */
  function ContactBook(db: Database): seq<string> {
    [db.ownerVcard] + ContactCards(db.contacts)
  }

  /** What a pull of contacts gives. Only the owner escapes a count of zero. */
  function ContactPull(db: Database, count: nat, offset: nat): seq<string> {
    if count == 0 && offset == 0 then [db.ownerVcard] else Window(ContactBook(db), offset, count)
  }

  /** The log a call book is pulled from. */
  function CallLog(db: Database, book: Book): seq<CallRow> {
    if book == MCH then db.missed else db.calls
  }

  function CallBook(db: Database, book: Book): seq<string> {
    CallCards(CallLog(db, book), book)
  }

  /** What a pull of calls gives: calls are numbered from 1, and offset 0 is taken for 1. */
  function CallPull(db: Database, book: Book, count: nat, offset: nat): seq<string> {
    Window(CallBook(db, book), if offset == 0 then 0 else offset - 1, count)
  }

  lemma {:induction false} ContactCardsPrefix(rows: seq<ContactRow>, k: nat)
    requires k <= |rows|
    ensures ContactCards(rows[..k]) <= ContactCards(rows)
  {
    if k == |rows| {
      assert rows[..k] == rows;
    } else {
      var n := |rows| - 1;
      ContactCardsPrefix(rows[..n], k);
      assert rows[..n][..k] == rows[..k];
    }
  }

  lemma {:induction false} CallCardsPrefix(rows: seq<CallRow>, book: Book, k: nat)
    requires k <= |rows|
    ensures CallCards(rows[..k], book) <= CallCards(rows, book)
  {
    if k == |rows| {
      assert rows[..k] == rows;
    } else {
      var n := |rows| - 1;
      CallCardsPrefix(rows[..n], book, k);
      assert rows[..n][..k] == rows[..k];
    }
  }

  lemma CallCardsSnoc(rows: seq<CallRow>, book: Book, k: nat)
    requires k < |rows|
    ensures CallCards(rows[..k + 1], book) ==
            CallCards(rows[..k], book) +
            if Belongs(book, rows[k].logType) && rows[k].vcard.Some? then [rows[k].vcard.value] else []
  {
    assert rows[..k + 1][..k] == rows[..k];
  }

  /** A window that is open at the end. */
  function Open<T>(list: seq<T>, from: nat): seq<T> {
    list[Min(from, |list|)..]
  }

  /** One more entry of a numbered list shows in a window that is open at the end if it has begun. */
  lemma AddEntry(seen: seq<string>, card: string, from: nat)
    ensures Open(seen + [card], from) == Open(seen, from) + if |seen| >= from then [card] else []
  {
  }

  lemma ContactCardsSnoc(rows: seq<ContactRow>, k: nat)
    requires k < |rows|
    ensures ContactCards(rows[..k + 1]) ==
            ContactCards(rows[..k]) + if rows[k].vcard.Some? then [rows[k].vcard.value] else []
  {
    assert rows[..k + 1][..k] == rows[..k];
  }

  /** Pulls contacts: the owner at offset 0, then the contacts numbered from 1. */
  method GetContactVcards(db: Database, maxListCount: guint16, listStartOffset: guint16) returns (vcards: seq<string>)
    ensures vcards == ContactPull(db, maxListCount, listStartOffset)
  {
    vcards := [];
    var i := 1;
    var unrestricted := maxListCount == 65535;
    hide ContactPull, ContactBook, Window, ContactCards, Open;
    if listStartOffset == 0 {
      vcards := vcards + [db.ownerVcard];
    }
    ghost var own := vcards;
    ghost var from := if listStartOffset == 0 then 0 else listStartOffset - 1;
    assert ContactCards(db.contacts[..0]) == [] by { NoContactCards(db.contacts); }
    NothingOpen(from);
    assert own + [] == own;
    var k := 0;
    while k < |db.contacts| && (unrestricted || i < listStartOffset + maxListCount)
      invariant 0 <= k <= |db.contacts| && 1 <= i
      invariant unrestricted || i == 1 || i <= listStartOffset + maxListCount
      invariant i - 1 == |ContactCards(db.contacts[..k])|
      invariant vcards == own + Open(ContactCards(db.contacts[..k]), from)
    {
      var row := db.contacts[k];
      ContactCardsSnoc(db.contacts, k);
      ghost var seen := ContactCards(db.contacts[..k]);
      k := k + 1;
      if row.vcard.None? {
        assert seen + [] == seen;
        continue;
      }
      AddEntry(seen, row.vcard.value, from);
      Assoc(own, Open(seen, from), [row.vcard.value]);
      if i >= listStartOffset {
        vcards := vcards + [row.vcard.value];
      }
      i := i + 1;
    }
    ContactCardsPrefix(db.contacts, k);
    assert db.contacts[..|db.contacts|] == db.contacts;
    PulledContacts(db, maxListCount, listStartOffset, ContactCards(db.contacts[..k]), k == |db.contacts|);
  }

  /** What the loop has collected when it stops is the window. */
  lemma PulledContacts(db: Database, count: guint16, offset: guint16, seen: seq<string>, all: bool)
    requires seen <= ContactCards(db.contacts) && (all ==> seen == ContactCards(db.contacts))
    requires all || (count != UNRESTRICTED && |seen| + 1 >= offset + count)
    requires count == UNRESTRICTED || seen == [] || |seen| + 1 <= offset + count
    ensures var from := if offset == 0 then 0 else offset - 1;
            (if offset == 0 then [db.ownerVcard] else []) + Open(seen, from) == ContactPull(db, count, offset)
  {
    var cards := ContactCards(db.contacts);
    hide ContactCards;
    if offset == 0 {
      FromOwner(db.ownerVcard, cards, seen, count, all);
    } else {
      BehindOwner(db.ownerVcard, cards, offset, count);
      PulledCalls(cards, seen, count, offset, all);
    }
  }

  lemma FromOwner(owner: string, cards: seq<string>, seen: seq<string>, count: guint16, all: bool)
    requires seen <= cards && (all ==> seen == cards)
    requires all || (count != UNRESTRICTED && |seen| + 1 >= count)
    requires count == UNRESTRICTED || seen == [] || |seen| + 1 <= count
    ensures [owner] + seen[0..] == if count == 0 then [owner] else Window([owner] + cards, 0, count)
  {
    var book := [owner] + cards;
    if count == UNRESTRICTED {
      assert book[0..] == book;
    } else if count > 0 {
      assert book[0..Min(count, |book|)] == [owner] + cards[..Min(count - 1, |cards|)];
      assert seen == cards[..Min(count - 1, |cards|)];
    }
  }

  lemma BehindOwner(owner: string, cards: seq<string>, offset: nat, count: nat)
    requires offset >= 1
    ensures Window([owner] + cards, offset, count) == Window(cards, offset - 1, count)
  {
    var book := [owner] + cards;
    assert book[1..] == cards;
  }

  /** What the loop over a call log has collected when it stops is the window. */
  lemma PulledCalls(cards: seq<string>, seen: seq<string>, count: guint16, offset: nat, all: bool)
    requires offset >= 1 && seen <= cards && (all ==> seen == cards)
    requires all || (count != UNRESTRICTED && |seen| + 1 >= offset + count)
    requires count == UNRESTRICTED || seen == [] || |seen| + 1 <= offset + count
    ensures Open(seen, offset - 1) == Window(cards, offset - 1, count)
  {
  }

  lemma NothingOpen(from: nat)
    ensures Open<string>([], from) == []
  {
  }

  lemma NoCards(rows: seq<CallRow>, book: Book)
    ensures CallCards(rows[..0], book) == []
  {
  }

  lemma NoContactCards(rows: seq<ContactRow>)
    ensures ContactCards(rows[..0]) == []
  {
  }

  /** Pulls one of the three single-kind call books. */
  method GetCallVcards(db: Database, book: Book, maxListCount: guint16, listStartOffset: guint16)
      returns (vcards: seq<string>)
    requires book == ICH || book == OCH || book == MCH
    ensures vcards == CallPull(db, book, maxListCount, listStartOffset)
  {
    vcards := [];
    var i := 1;
    var offset := listStartOffset;
    var unrestricted := maxListCount == 65535;
    if offset == 0 {
      offset := 1;
    }
    var rows := CallLog(db, book);
    hide CallCards, Window, Open, Belongs, CallLog;
    assert CallCards(rows[..0], book) == [] by { NoCards(rows, book); }
    NothingOpen(offset - 1);
    var k := 0;
    while k < |rows| && (unrestricted || i < offset + maxListCount)
      invariant 0 <= k <= |rows| && 1 <= i
      invariant unrestricted || i <= offset + maxListCount
      invariant i - 1 == |CallCards(rows[..k], book)|
      invariant vcards == Open(CallCards(rows[..k], book), offset - 1)
    {
      var row := rows[k];
      CallCardsSnoc(rows, book, k);
      ghost var seen := CallCards(rows[..k], book);
      assert seen + [] == seen;
      k := k + 1;
      if Belongs(book, row.logType) {
        if row.vcard.None? {
          continue;
        }
        AddEntry(seen, row.vcard.value, offset - 1);
        if i >= offset {
          vcards := vcards + [row.vcard.value];
        }
        i := i + 1;
      }
    }
    CallCardsPrefix(rows, book, k);
    assert rows[..|rows|] == rows;
    PulledCalls(CallCards(rows, book), CallCards(rows[..k], book), maxListCount, offset, k == |rows|);
  }

  datatype Attr = RECEIVED | DIALED | MISSED

  /** The vCard of a call, which needs an attribute to be made at all. */
  function CallVcard(row: CallRow, attr: Option<Attr>): Option<string> {
    if attr.None? then None else row.vcard
  }

  /** Pulls the combined call book; a call that is none of the three kinds has no vCard there. */
  method GetCombinedCallVcards(db: Database, maxListCount: guint16, listStartOffset: guint16)
      returns (vcards: seq<string>)
    ensures vcards == CallPull(db, CCH, maxListCount, listStartOffset)
  {
    vcards := [];
    var i := 1;
    var offset := listStartOffset;
    var unrestricted := maxListCount == 65535;
    if offset == 0 {
      offset := 1;
    }
    var rows := db.calls;
    hide CallCards, Window, Open;
    assert CallCards(rows[..0], CCH) == [] by { NoCards(rows, CCH); }
    NothingOpen(offset - 1);
    var k := 0;
    while k < |rows| && (unrestricted || i < offset + maxListCount)
      invariant 0 <= k <= |rows| && 1 <= i
      invariant unrestricted || i <= offset + maxListCount
      invariant i - 1 == |CallCards(rows[..k], CCH)|
      invariant vcards == Open(CallCards(rows[..k], CCH), offset - 1)
    {
      var row := rows[k];
      CallCardsSnoc(rows, CCH, k);
      ghost var seen := CallCards(rows[..k], CCH);
      assert seen + [] == seen;
      k := k + 1;
      var attr: Option<Attr> := None;
      if IsIncoming(row.logType) {
        attr := Some(RECEIVED);
      } else if IsOutgoing(row.logType) {
        attr := Some(DIALED);
      } else if IsMissed(row.logType) {
        attr := Some(MISSED);
      }
      var vcard := CallVcard(row, attr);
      if vcard.None? {
        continue;
      }
      AddEntry(seen, vcard.value, offset - 1);
      if i >= offset {
        vcards := vcards + [vcard.value];
      }
      i := i + 1;
    }
    CallCardsPrefix(rows, CCH, k);
    assert rows[..|rows|] == rows;
    PulledCalls(CallCards(rows, CCH), CallCards(rows[..k], CCH), maxListCount, offset, k == |rows|);
  }

  // ----- paging -----

  /** Consecutive windows of `m` entries from `from` on, until the list is exhausted. */
  function Pages<T>(list: seq<T>, m: nat, from: nat): seq<T>
    requires m >= 1
    decreases |list| - from
  {
    if from >= |list| then [] else Window(list, from, m) + Pages(list, m, from + m)
  }

  lemma WindowThenRest<T>(list: seq<T>, from: nat, m: nat)
    requires m != UNRESTRICTED
    ensures Window(list, from, m) + Open(list, from + m) == Open(list, from)
  {
  }

  lemma {:induction false} PagesAreAll<T>(list: seq<T>, m: nat, from: nat)
    requires 1 <= m && m != UNRESTRICTED
    ensures Pages(list, m, from) == Open(list, from)
    decreases |list| - from
  {
    if from < |list| {
      hide Window, Open;
      PagesAreAll(list, m, from + m);
      WindowThenRest(list, from, m);
    }
  }

  /** The pulls of a client that asks for contacts page by page. */
  function ContactPages(db: Database, m: nat, from: nat): seq<string>
    requires m >= 1
    decreases |ContactBook(db)| - from
  {
    if from >= |ContactBook(db)| then [] else ContactPull(db, m, from) + ContactPages(db, m, from + m)
  }

  function CallPages(db: Database, book: Book, m: nat, from: nat): seq<string>
    requires m >= 1
    decreases |CallBook(db, book)| + 1 - from
  {
    if from >= |CallBook(db, book)| + 1 then []
    else CallPull(db, book, m, from) + CallPages(db, book, m, from + m)
  }

  lemma {:induction false} ContactPagesArePages(db: Database, m: nat, from: nat)
    requires m >= 1
    ensures ContactPages(db, m, from) == Pages(ContactBook(db), m, from)
    decreases |ContactBook(db)| - from
  {
    hide Window, ContactBook;
    if from < |ContactBook(db)| {
      ContactPagesArePages(db, m, from + m);
    }
  }

  lemma {:induction false} CallPagesArePages(db: Database, book: Book, m: nat, from: nat)
    requires m >= 1 && from >= 1
    ensures CallPages(db, book, m, from) == Pages(CallBook(db, book), m, from - 1)
    decreases |CallBook(db, book)| + 1 - from
  {
    hide Window, CallBook;
    if from < |CallBook(db, book)| + 1 {
      CallPagesArePages(db, book, m, from + m);
    }
  }

  /** Paging loses and repeats nothing: from any offset on, pages of any size put together are the
      unrestricted pull. Calls are paged from offset 1. */
  lemma PagingIsComplete(db: Database, book: Book, m: nat, from: nat)
    requires 1 <= m < UNRESTRICTED
    ensures ContactPages(db, m, from) == ContactPull(db, UNRESTRICTED, from)
    ensures from >= 1 ==> CallPages(db, book, m, from) == CallPull(db, book, UNRESTRICTED, from)
  {
    ContactPagesArePages(db, m, from);
    PagesAreAll(ContactBook(db), m, from);
    hide Pages, ContactPages, CallPages, ContactBook, CallBook;
    if from >= 1 {
      CallPagesArePages(db, book, m, from);
      PagesAreAll(CallBook(db, book), m, from - 1);
    }
  }

  /** Because offset 0 is taken for 1, two call windows from offset 0 are one of twice the size only
      if the first is not full: otherwise the second begins with the call the first ended with. */
  lemma OffsetZeroRepeats(db: Database, book: Book, m: nat, offset: nat)
    requires 1 <= m && 2 * m < UNRESTRICTED
    ensures var x, y := CallPull(db, book, m, offset), CallPull(db, book, m, offset + m);
            if offset >= 1 || |CallBook(db, book)| < m then x + y == CallPull(db, book, 2 * m, offset)
            else |x| == m && y != [] && y[0] == x[m - 1]
  {
    var list := CallBook(db, book);
    hide CallBook;
    if offset >= 1 {
      WindowsJoin(list, offset - 1, m);
    } else {
      FirstWindows(list, m);
    }
  }

  lemma WindowsJoin<T>(list: seq<T>, from: nat, m: nat)
    requires 1 <= m && 2 * m < UNRESTRICTED
    ensures Window(list, from, m) + Window(list, from + m, m) == Window(list, from, 2 * m)
  {
    var a, b, c := Min(from, |list|), Min(from + m, |list|), Min(from + 2 * m, |list|);
    assert list[a..b] + list[b..c] == list[a..c];
  }

  lemma FirstWindows<T>(list: seq<T>, m: nat)
    requires 1 <= m && 2 * m < UNRESTRICTED
    ensures var x, y := Window(list, 0, m), Window(list, m - 1, m);
            if |list| < m then x + y == Window(list, 0, 2 * m)
            else |x| == m && y != [] && y[0] == x[m - 1]
  {
    if |list| < m {
      assert Window(list, m - 1, m) == [];
      assert Window(list, 0, m) + [] == Window(list, 0, m);
    }
  }

  // ----- sizes -----

  /** The size a book is reported with. */
  function BookSize(db: Database, book: Book): nat {
    match book
    case PB => |db.contacts| + 1
    case MCH => |db.missed|
    case _ => |Matching(db.calls, book)|
  }

  /** The list of missed calls is what the log has of them. */
  predicate MissedListAgrees(db: Database) {
    db.missed == Matching(db.calls, MCH)
  }

  predicate ContactsHaveCards(rows: seq<ContactRow>) {
    forall i :: 0 <= i < |rows| ==> rows[i].vcard.Some?
  }

  predicate CallsHaveCards(rows: seq<CallRow>) {
    forall i :: 0 <= i < |rows| ==> rows[i].vcard.Some?
  }

  /** The pull of a whole book. */
  function Unrestricted(db: Database, book: Book): seq<string> {
    if book == PB then ContactPull(db, UNRESTRICTED, 0) else CallPull(db, book, UNRESTRICTED, 0)
  }

  /** Every entry that is counted is one that is pulled. */
  predicate AllPulled(db: Database, book: Book) {
    match book
    case PB => ContactsHaveCards(db.contacts)
    case MCH =>
      (forall i :: 0 <= i < |db.missed| ==> IsMissed(db.missed[i].logType)) && CallsHaveCards(Matching(db.missed, MCH))
    case _ => CallsHaveCards(Matching(db.calls, book))
  }

  lemma {:induction false} ContactCardsIff(rows: seq<ContactRow>)
    ensures |ContactCards(rows)| <= |rows|
    ensures |ContactCards(rows)| == |rows| <==> ContactsHaveCards(rows)
  {
    if rows != [] {
      ContactCardsIff(rows[..|rows| - 1]);
    }
  }

  lemma {:induction false} CallCardsIff(rows: seq<CallRow>, book: Book)
    ensures |CallCards(rows, book)| <= |Matching(rows, book)|
    ensures |CallCards(rows, book)| == |Matching(rows, book)| <==> CallsHaveCards(Matching(rows, book))
  {
    if rows != [] {
      var n := |rows| - 1;
      CallCardsIff(rows[..n], book);
      var m, all := Matching(rows[..n], book), Matching(rows, book);
      assert forall i :: 0 <= i < |m| ==> all[i] == m[i];
      assert Belongs(book, rows[n].logType) ==> all[|m|] == rows[n];
    }
  }

  lemma {:induction false} MatchingIff(rows: seq<CallRow>, book: Book)
    ensures |Matching(rows, book)| <= |rows|
    ensures |Matching(rows, book)| == |rows| <==> forall i :: 0 <= i < |rows| ==> Belongs(book, rows[i].logType)
  {
    if rows != [] {
      MatchingIff(rows[..|rows| - 1], book);
    }
  }

  /** The reported size of a book is the length of its unrestricted pull exactly when every entry that
      is counted is one that is pulled. */
  lemma SizeIsPullIff(db: Database, book: Book)
    ensures BookSize(db, book) == |Unrestricted(db, book)| <==> AllPulled(db, book)
    ensures BookSize(db, book) >= |Unrestricted(db, book)|
  {
    ContactCardsIff(db.contacts);
    CallCardsIff(CallLog(db, book), book);
    MatchingIff(db.missed, MCH);
    hide ContactCards, CallCards, Matching, ContactsHaveCards, CallsHaveCards;
  }

  /** The size of the contact book counts every contact and the owner. */
  method GetContactSize(db: Database) returns (size: nat)
    ensures size == BookSize(db, PB)
    ensures size == |Unrestricted(db, PB)| <==> AllPulled(db, PB)
  {
    SizeIsPullIff(db, PB);
    size := |db.contacts|;
    size := size + 1;
  }

  method GetIncomingCallSize(db: Database) returns (size: nat)
    ensures size == BookSize(db, ICH)
    ensures size == |Unrestricted(db, ICH)| <==> AllPulled(db, ICH)
  {
    SizeIsPullIff(db, ICH);
    size := 0;
    var k := 0;
    while k < |db.calls|
      invariant 0 <= k <= |db.calls| && size == |Matching(db.calls[..k], ICH)|
    {
      MatchingSnoc(db.calls, ICH, k);
      if IsIncoming(db.calls[k].logType) {
        size := size + 1;
      }
      k := k + 1;
    }
    assert db.calls[..k] == db.calls;
  }

  method GetOutgoingCallSize(db: Database) returns (size: nat)
    ensures size == BookSize(db, OCH)
    ensures size == |Unrestricted(db, OCH)| <==> AllPulled(db, OCH)
  {
    SizeIsPullIff(db, OCH);
    size := 0;
    var k := 0;
    while k < |db.calls|
      invariant 0 <= k <= |db.calls| && size == |Matching(db.calls[..k], OCH)|
    {
      MatchingSnoc(db.calls, OCH, k);
      if IsOutgoing(db.calls[k].logType) {
        size := size + 1;
      }
      k := k + 1;
    }
    assert db.calls[..k] == db.calls;
  }

  /** Missed calls are counted on the service's list of them, whatever their type. */
  method GetMissedCallSize(db: Database) returns (size: nat)
    ensures size == BookSize(db, MCH)
    ensures size == |Unrestricted(db, MCH)| <==> AllPulled(db, MCH)
    ensures MissedListAgrees(db) ==> size == |Matching(db.calls, MCH)|
  {
    SizeIsPullIff(db, MCH);
    size := 0;
    var k := 0;
    while k < |db.missed|
      invariant 0 <= k <= |db.missed| && size == k
    {
      size := size + 1;
      k := k + 1;
    }
  }

  method GetCombinedCallSize(db: Database) returns (size: nat)
    ensures size == BookSize(db, CCH)
    ensures size == |Unrestricted(db, CCH)| <==> AllPulled(db, CCH)
  {
    SizeIsPullIff(db, CCH);
    size := 0;
    var k := 0;
    while k < |db.calls|
      invariant 0 <= k <= |db.calls| && size == |Matching(db.calls[..k], CCH)|
    {
      MatchingSnoc(db.calls, CCH, k);
      if IsIncoming(db.calls[k].logType) || IsOutgoing(db.calls[k].logType) || IsMissed(db.calls[k].logType) {
        size := size + 1;
      }
      k := k + 1;
    }
    assert db.calls[..k] == db.calls;
  }

  lemma {:induction false} ContactCardsAll(rows: seq<ContactRow>)
    requires ContactsHaveCards(rows)
    ensures |ContactCards(rows)| == |rows|
    ensures forall i :: 0 <= i < |rows| ==> ContactCards(rows)[i] == rows[i].vcard.value
  {
    if rows != [] {
      ContactCardsAll(rows[..|rows| - 1]);
    }
  }

  /** With a vCard for each call of the book, the pulled list is the book, row by row. */
  lemma {:induction false} CallCardsAll(rows: seq<CallRow>, book: Book)
    requires CallsHaveCards(Matching(rows, book))
    ensures |CallCards(rows, book)| == |Matching(rows, book)|
    ensures forall i :: 0 <= i < |Matching(rows, book)| ==>
              CallCards(rows, book)[i] == Matching(rows, book)[i].vcard.value
  {
    if rows != [] {
      var n := |rows| - 1;
      var m := Matching(rows[..n], book);
      assert forall i :: 0 <= i < |m| ==> Matching(rows, book)[i] == m[i];
      if Belongs(book, rows[n].logType) {
        assert Matching(rows, book)[|m|] == rows[n];
      }
      CallCardsAll(rows[..n], book);
    }
  }

  lemma {:induction false} MatchingTwice(rows: seq<CallRow>, book: Book)
    ensures Matching(Matching(rows, book), book) == Matching(rows, book)
  {
    if rows != [] {
      var n := |rows| - 1;
      MatchingTwice(rows[..n], book);
      var m := Matching(rows[..n], book);
      if Belongs(book, rows[n].logType) {
        assert (m + [rows[n]])[..|m|] == m;
      } else {
        assert m + [] == m;
      }
    }
  }

  /** Sizes are conserved: the combined book is as long as the three others together, and with a
      vCard for each entry every book is as long as its unrestricted pull. */
  lemma SizesAreConserved(db: Database)
    requires MissedListAgrees(db)
    ensures BookSize(db, CCH) == BookSize(db, ICH) + BookSize(db, OCH) + BookSize(db, MCH)
    ensures ContactsHaveCards(db.contacts) ==> BookSize(db, PB) == |ContactPull(db, UNRESTRICTED, 0)|
    ensures forall book | IsCallBook(book) && CallsHaveCards(Matching(db.calls, book)) ::
              BookSize(db, book) == |CallPull(db, book, UNRESTRICTED, 0)|
  {
    BooksPartition(db.calls);
    if ContactsHaveCards(db.contacts) {
      ContactCardsAll(db.contacts);
    }
    forall book | IsCallBook(book) && CallsHaveCards(Matching(db.calls, book))
      ensures BookSize(db, book) == |CallPull(db, book, UNRESTRICTED, 0)|
    {
      MatchingTwice(db.calls, book);
      CallCardsAll(CallLog(db, book), book);
    }
  }

  /** The entry pulled alone at offset `h` is the `h`-th call of the book. */
  lemma PulledAlone(db: Database, book: Book, h: nat)
    requires IsCallBook(book) && (book == MCH ==> MissedListAgrees(db))
    requires CallsHaveCards(Matching(db.calls, book)) && 1 <= h <= |Matching(db.calls, book)|
    ensures CallPull(db, book, 1, h) == [Matching(db.calls, book)[h - 1].vcard.value]
  {
    var rows := Matching(db.calls, book);
    assert Matching(CallLog(db, book), book) == rows by {
      MatchingTwice(db.calls, book);
    }
    CallCardsAll(CallLog(db, book), book);
    WindowOfOne(CallBook(db, book), h - 1);
  }

  lemma WindowOfOne<T>(list: seq<T>, i: nat)
    requires i < |list|
    ensures Window(list, i, 1) == [list[i]]
  {
  }

  // ----- which row a pull shows -----

  function CallVcards(rows: seq<CallRow>): seq<Option<string>> {
    FieldOf(rows, (r: CallRow) => r.vcard)
  }

  function ContactVcards(rows: seq<ContactRow>): seq<Option<string>> {
    FieldOf(rows, (r: ContactRow) => r.vcard)
  }

  /** Where the vCards are. */
  function Present(cards: seq<Option<string>>): seq<nat> {
    if cards == [] then []
    else
      var n := |cards| - 1;
      Present(cards[..n]) + if cards[n].Some? then [n] else []
  }

  /** The row that is pulled as number `h`. */
  function PulledRow(cards: seq<Option<string>>, h: nat): nat {
    if 1 <= h <= |Present(cards)| then Present(cards)[h - 1] else 0
  }

  /** The `i`-th vCard is not before row `i`, and there if and only if no row up to it lacks one. */
  lemma {:induction false} PresentAt(cards: seq<Option<string>>, i: nat)
    requires i < |Present(cards)|
    ensures i <= Present(cards)[i] < |cards| && cards[Present(cards)[i]].Some?
    ensures Present(cards)[i] == i <==> forall k :: 0 <= k <= i ==> cards[k].Some?
  {
    var n := |cards| - 1;
    PresentCount(cards[..n]);
    if i < |Present(cards[..n])| {
      PresentAt(cards[..n], i);
    } else if i < n && forall k :: 0 <= k <= i ==> cards[k].Some? {
      PresentPrefix(cards[..n], i + 1);
    }
  }

  /** There are at most as many as rows, and as many only if every row has one. */
  lemma {:induction false} PresentCount(cards: seq<Option<string>>)
    ensures |Present(cards)| <= |cards|
    ensures |Present(cards)| == |cards| <==> forall k :: 0 <= k < |cards| ==> cards[k].Some?
  {
    if cards != [] {
      PresentCount(cards[..|cards| - 1]);
    }
  }

  lemma {:induction false} PresentPrefix(cards: seq<Option<string>>, m: nat)
    requires m <= |cards| && forall k :: 0 <= k < m ==> cards[k].Some?
    ensures |Present(cards)| >= m
  {
    if cards != [] {
      PresentPrefix(cards[..|cards| - 1], if m == |cards| then m - 1 else m);
    }
  }

  lemma PresentSnoc(cards: seq<Option<string>>, c: Option<string>)
    ensures Present(cards + [c]) == Present(cards) + if c.Some? then [|cards|] else []
  {
    assert (cards + [c])[..|cards|] == cards;
  }

  /** The cards `xs` are those of `cards`, in order. */
  ghost predicate Shows(xs: seq<string>, cards: seq<Option<string>>) {
    |xs| == |Present(cards)| && forall i :: 0 <= i < |xs| ==> IsCardAt(cards, Present(cards)[i], xs[i])
  }

  predicate IsCardAt(cards: seq<Option<string>>, at: nat, x: string) {
    at < |cards| && cards[at] == Some(x)
  }

  lemma ShowsNoMore(xs: seq<string>, cards: seq<Option<string>>)
    requires Shows(xs, cards)
    ensures Shows(xs, cards + [None])
  {
    var more := cards + [None];
    PresentSnoc(cards, None);
    assert Present(more) == Present(cards);
    hide Present;
    forall i | 0 <= i < |xs| ensures IsCardAt(more, Present(more)[i], xs[i]) {
      assert IsCardAt(cards, Present(cards)[i], xs[i]);
    }
  }

  lemma ShowsOneMore(xs: seq<string>, cards: seq<Option<string>>, x: string)
    requires Shows(xs, cards)
    ensures Shows(xs + [x], cards + [Some(x)])
  {
    PresentSnoc(cards, Some(x));
    var more, ps := cards + [Some(x)], Present(cards);
    hide Present;
    forall i | 0 <= i < |xs + [x]| ensures IsCardAt(more, Present(more)[i], (xs + [x])[i]) {
      if i < |xs| {
        assert IsCardAt(cards, ps[i], xs[i]) && (xs + [x])[i] == xs[i];
      }
    }
  }

  lemma ShowsSnoc(xs: seq<string>, cards: seq<Option<string>>, c: Option<string>)
    requires Shows(xs, cards)
    ensures Shows(xs + if c.Some? then [c.value] else [], cards + [c])
  {
    hide Shows;
    if c.Some? {
      ShowsOneMore(xs, cards, c.value);
    } else {
      ShowsNoMore(xs, cards);
      assert xs + [] == xs;
    }
  }

  lemma {:induction false} CallsShown(rows: seq<CallRow>, book: Book)
    ensures Shows(CallCards(rows, book), CallVcards(Matching(rows, book)))
  {
    if rows != [] {
      var n := |rows| - 1;
      var ms, r := Matching(rows[..n], book), rows[n];
      CallsShown(rows[..n], book);
      if Belongs(book, r.logType) {
        ShowsSnoc(CallCards(rows[..n], book), CallVcards(ms), r.vcard);
        assert CallVcards(ms + [r]) == CallVcards(ms) + [r.vcard];
      } else {
        assert ms + [] == ms && CallCards(rows[..n], book) + [] == CallCards(rows[..n], book);
      }
    }
  }

  lemma {:induction false} ContactsShown(rows: seq<ContactRow>)
    ensures Shows(ContactCards(rows), ContactVcards(rows))
  {
    if rows != [] {
      var n := |rows| - 1;
      ContactsShown(rows[..n]);
      ShowsSnoc(ContactCards(rows[..n]), ContactVcards(rows[..n]), rows[n].vcard);
      assert ContactVcards(rows) == ContactVcards(rows[..n]) + [rows[n].vcard];
    }
  }

  lemma ShownAt(xs: seq<string>, cards: seq<Option<string>>, h: nat)
    requires Shows(xs, cards) && 1 <= h <= |xs|
    ensures var at := PulledRow(cards, h);
            h - 1 <= at < |cards| && cards[at] == Some(xs[h - 1]) &&
            (at == h - 1 <==> forall i :: 0 <= i < h ==> cards[i].Some?)
  {
    PresentAt(cards, h - 1);
    assert IsCardAt(cards, Present(cards)[h - 1], xs[h - 1]);
    hide Present;
  }

  /** A pull of one shows the `h`-th vCard of the book; it is that of row `h` if and only if no row up
      to it lacks one. */
  lemma PulledCall(db: Database, book: Book, h: nat)
    requires IsCallBook(book) && (book == MCH ==> MissedListAgrees(db)) && 1 <= h <= |CallBook(db, book)|
    ensures var rows := Matching(db.calls, book);
            var at := PulledRow(CallVcards(rows), h);
            h - 1 <= at < |rows| && rows[at].vcard.Some? && CallPull(db, book, 1, h) == [rows[at].vcard.value] &&
            (at == h - 1 <==> forall i :: 0 <= i < h ==> rows[i].vcard.Some?)
  {
    var rows := Matching(db.calls, book);
    hide Window, Matching, CallCards, CallBook, Shows, PulledRow, MissedListAgrees, IsCallBook;
    BookShown(db, book);
    ShownAt(CallBook(db, book), CallVcards(rows), h);
    WindowOfOne(CallBook(db, book), h - 1);
  }

  lemma BookShown(db: Database, book: Book)
    requires book == MCH ==> MissedListAgrees(db)
    ensures Shows(CallBook(db, book), CallVcards(Matching(db.calls, book)))
  {
    MatchingTwice(db.calls, book);
    hide Matching, CallCards, Shows;
    CallsShown(CallLog(db, book), book);
  }

  lemma PulledContact(db: Database, h: nat)
    requires 1 <= h <= |ContactCards(db.contacts)|
    ensures var rows := db.contacts;
            var at := PulledRow(ContactVcards(rows), h);
            h - 1 <= at < |rows| && rows[at].vcard.Some? && ContactPull(db, 1, h) == [rows[at].vcard.value] &&
            (at == h - 1 <==> forall i :: 0 <= i < h ==> rows[i].vcard.Some?)
  {
    var rows := db.contacts;
    hide Present, ContactCards;
    ContactsShown(rows);
    ShownAt(ContactCards(rows), ContactVcards(rows), h);
    WindowOfOne(ContactBook(db), h);
    hide Window, Shows;
  }

  // ----- what a window is -----

  /** A window is the entries from `from` on, as many as asked for and there are; 65535 asks for all. */
  lemma WindowIs<T>(list: seq<T>, from: nat, count: nat)
    ensures var w, left := Window(list, from, count), if from < |list| then |list| - from else 0;
            |w| == (if count == 65535 || count > left then left else count) &&
            forall i :: 0 <= i < |w| ==> w[i] == list[from + i]
  {
  }

  lemma WindowBehind<T>(x: T, list: seq<T>, from: nat, count: nat)
    requires from >= 1
    ensures Window([x] + list, from, count) == Window(list, from - 1, count)
  {
    var all := [x] + list;
    assert all[1..] == list;
  }

  lemma WindowAhead<T>(x: T, list: seq<T>, count: nat)
    requires 1 <= count <= 65535
    ensures Window([x] + list, 0, count) ==
            [x] + Window(list, 0, if count == 65535 then 65535 else count - 1)
  {
    var all := [x] + list;
    assert all[1..] == list && all[..1] == [x];
  }

  /** The owner is number 0 and is pulled from offset 0 whatever the count; behind it the contacts with
      a vCard are numbered from 1. Calls are numbered from 1, and offset 0 is offset 1. */
  lemma PullsAreNumbered(db: Database, book: Book, count: guint16, offset: nat)
    ensures ContactPull(db, count, 0) ==
            [db.ownerVcard] +
            Window(ContactCards(db.contacts), 0, if count == 0 || count == 65535 then count else count - 1)
    ensures offset >= 1 ==> ContactPull(db, count, offset) == Window(ContactCards(db.contacts), offset - 1, count)
    ensures CallPull(db, book, count, 0) == CallPull(db, book, count, 1)
    ensures offset >= 1 ==> CallPull(db, book, count, offset) == Window(CallBook(db, book), offset - 1, count)
  {
    var cards := ContactCards(db.contacts);
    WindowIs(cards, 0, 0);
    hide ContactCards, CallBook, Window;
    if count >= 1 {
      WindowAhead(db.ownerVcard, cards, count);
    }
    if offset >= 1 {
      WindowBehind(db.ownerVcard, cards, offset, count);
    }
  }
}
