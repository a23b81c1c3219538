/**
 The cached index of the phonebook agent: a table from handles to ids that is built for one book at
 a time and thrown away when the database changes.
 */
module PhonebookIndex {
  import opened Text
  import opened PhonebookStore
  import opened PhonebookPull

  function ContactIds(rows: seq<ContactRow>): seq<int> {
    FieldOf(rows, (r: ContactRow) => r.id)
  }

  function CallIds(rows: seq<CallRow>): seq<int> {
    FieldOf(rows, (r: CallRow) => r.id)
  }

  /** The ids a book holds, in order: handle `h` is the `h`-th of them. */
  function Ids(db: Database, book: Book): seq<int> {
    match book
    case NoBook => []
    case PB => ContactIds(db.contacts)
    case _ => CallIds(Matching(db.calls, book))
  }

  function IdAt(ids: seq<int>, handle: int): int {
    if 1 <= handle <= |ids| then ids[handle - 1] else 0
  }

  /** The index of a list of ids: handles from 1 on. */
  function IndexOf(ids: seq<int>): map<int, int> {
    map h | 1 <= h <= |ids| :: IdAt(ids, h)
  }

  /** One line of a listing. */
  datatype Entry = Entry(name: string, number: string, handle: int)

  function InfoOf(m: map<int, Info>, id: int): Info {
    if id in m then m[id] else Info("", "", "")
  }

  function NameIn(info: Info, formatted: bool): string {
    if formatted then info.fn else info.name
  }

  /** The owner's line; its two names are chosen the other way round. */
  function OwnerEntry(db: Database, formatted: bool): Entry {
    Entry(if formatted then db.owner.name else db.owner.fn, db.owner.number, 0)
  }

  function InfoIn(db: Database, book: Book, id: int): Info {
    InfoOf(if book == PB then db.contactInfo else db.callInfo, id)
  }

  function EntryAt(db: Database, book: Book, handle: int, formatted: bool): Entry {
    var info := InfoIn(db, book, IdAt(Ids(db, book), handle));
    Entry(NameIn(info, formatted), info.number, handle)
  }

  /** The lines of the handles from `lo` to `hi`. */
  function EntriesBetween(db: Database, book: Book, lo: int, hi: int, formatted: bool): seq<Entry>
    decreases hi - lo
  {
    if lo > hi then [] else EntriesBetween(db, book, lo, hi - 1, formatted) + [EntryAt(db, book, hi, formatted)]
  }

  /** The last handle of a listing: an end before the start is the start, and an end that is still
      negative is, compared unsigned, past every handle. */
  function LastHandle(start: int, end: int, size: nat): int {
    var e := if end < 0 || end < start then start else end;
    if e < 0 || size < e then size else e
  }

  function FirstHandle(start: int): int {
    if start <= 0 then 1 else start
  }

  /** A listing made straight from the database. */
  function Listing(db: Database, book: Book, start: int, end: int, formatted: bool): seq<Entry> {
    (if book == PB && start <= 0 then [OwnerEntry(db, formatted)] else []) +
    EntriesBetween(db, book, FirstHandle(start), LastHandle(start, end, |Ids(db, book)|), formatted)
  }

  /** The lines up to handle `hi` whose name begins with `text`. */
  function FoundUpTo(db: Database, book: Book, text: string, hi: nat, formatted: bool): seq<Entry> {
    if hi == 0 then []
    else
      var e := EntryAt(db, book, hi, formatted);
      FoundUpTo(db, book, text, hi - 1, formatted) + if text <= e.name then [e] else []
  }

  function Found(db: Database, book: Book, text: string, formatted: bool, owner: bool): seq<Entry> {
    var o := OwnerEntry(db, formatted);
    (if book == PB && owner && text <= o.name then [o] else []) +
    FoundUpTo(db, book, text, |Ids(db, book)|, formatted)
  }

  lemma ContactIdsSnoc(rows: seq<ContactRow>, k: nat)
    requires k < |rows|
    ensures ContactIds(rows[..k + 1]) == ContactIds(rows[..k]) + [rows[k].id]
  {
  }

  lemma CallIdsSnoc(rows: seq<CallRow>, book: Book, k: nat)
    requires k < |rows|
    ensures CallIds(Matching(rows[..k + 1], book)) ==
            CallIds(Matching(rows[..k], book)) + if Belongs(book, rows[k].logType) then [rows[k].id] else []
  {
    MatchingSnoc(rows, book, k);
  }

  lemma IndexSnoc(ids: seq<int>, id: int)
    ensures IndexOf(ids + [id]) == IndexOf(ids)[|ids| + 1 := id]
  {
  }

  lemma IndexSize(ids: seq<int>)
    ensures |IndexOf(ids)| == |ids|
    decreases |ids|
  {
    if ids == [] {
      assert IndexOf(ids) == map[];
    } else {
      var n := |ids| - 1;
      IndexSize(ids[..n]);
      IndexSnoc(ids[..n], ids[n]);
      assert ids[..n] + [ids[n]] == ids;
    }
  }

  lemma IndexLookup(ids: seq<int>, h: int)
    ensures (if h in IndexOf(ids) then IndexOf(ids)[h] else 0) == IdAt(ids, h)
  {
  }

  lemma ContactIndexStep(rows: seq<ContactRow>, k: nat)
    requires k < |rows|
    ensures IndexOf(ContactIds(rows[..k + 1])) == IndexOf(ContactIds(rows[..k]))[k + 1 := rows[k].id]
  {
    ContactIdsSnoc(rows, k);
    IndexSnoc(ContactIds(rows[..k]), rows[k].id);
    hide IndexOf;
  }

  lemma NoContactsNoHandles(rows: seq<ContactRow>)
    ensures IndexOf(ContactIds(rows[..0])) == map[]
  {
  }

  /** One more row of the log: it gets the next handle if it belongs, and none if it does not. */
  lemma CallIndexStep(rows: seq<CallRow>, book: Book, k: nat)
    requires k < |rows|
    ensures var ids, next := CallIds(Matching(rows[..k], book)), CallIds(Matching(rows[..k + 1], book));
            if Belongs(book, rows[k].logType)
            then IndexOf(next) == IndexOf(ids)[|ids| + 1 := rows[k].id] && |next| == |ids| + 1
            else next == ids
  {
    CallIdsSnoc(rows, book, k);
    hide IndexOf, CallIds, Matching;
    var ids := CallIds(Matching(rows[..k], book));
    IndexSnoc(ids, rows[k].id);
    assert ids + [] == ids;
  }

  lemma NoCallsNoHandles(rows: seq<CallRow>, book: Book)
    ensures IndexOf(CallIds(Matching(rows[..0], book))) == map[] && CallIds(Matching(rows[..0], book)) == []
  {
  }

  lemma FoundStep(head: seq<Entry>, db: Database, book: Book, text: string, h: nat, formatted: bool)
    requires h >= 1
    ensures var e, before := EntryAt(db, book, h, formatted), head + FoundUpTo(db, book, text, h - 1, formatted);
            head + FoundUpTo(db, book, text, h, formatted) == before + if text <= e.name then [e] else []
  {
    hide EntryAt;
    var e := EntryAt(db, book, h, formatted);
    Assoc(head, FoundUpTo(db, book, text, h - 1, formatted), if text <= e.name then [e] else []);
  }

  /** The agent: the table, if there is one, and the book it was built for. */
  class PbAgent {
    var listHash: Option<map<int, int>>
    var currentBook: Book

    /** The table is that of the current book of this database; with no book there is no table. */
    ghost predicate Valid(db: Database)
      reads this
    {
      listHash == if currentBook == NoBook then None else Some(IndexOf(Ids(db, currentBook)))
    }

    constructor ()
      ensures currentBook == NoBook && forall db :: Valid(db)
    {
      listHash, currentBook := None, NoBook;
    }

    /** The database has changed. */
    method Clear()
      modifies this
      ensures currentBook == NoBook && forall db :: Valid(db)
    {
      if listHash.Some? {
        listHash := None;
      }
      currentBook := NoBook;
    }

    method ListHashReset()
      modifies this
      ensures listHash == Some(map[]) && currentBook == old(currentBook)
    {
      listHash := Some(map[]);
    }

    method ListHashInsert(handle: int, id: int) returns (done: bool)
      modifies this
      ensures currentBook == old(currentBook) && done == old(listHash).Some?
      ensures listHash == if done then Some(old(listHash).value[handle := id]) else None
    {
      if listHash.None? {
        return false;
      }
      listHash := Some(listHash.value[handle := id]);
      done := true;
    }

    method ListHashLookupId(handle: int) returns (id: int)
      ensures id == if listHash.Some? && handle in listHash.value then listHash.value[handle] else 0
    {
      if listHash.None? {
        return 0;
      }
      id := if handle in listHash.value then listHash.value[handle] else 0;
    }

    method ListHashSize() returns (size: nat)
      ensures size == if listHash.Some? then |listHash.value| else 0
    {
      if listHash.None? {
        return 0;
      }
      size := |listHash.value|;
    }

    method CreateContactIndex(db: Database, book: Book)
      requires book == PB && Valid(db)
      modifies this
      ensures Valid(db) && currentBook == book
    {
      hide IndexOf, CallIds, Matching, ContactIds;
      if currentBook == book {
        return;
      }
      currentBook := book;
      ListHashReset();
      var i, k := 1, 0;
      NoContactsNoHandles(db.contacts);
      while k < |db.contacts|
        invariant 0 <= k <= |db.contacts| && i == k + 1 && currentBook == book
        invariant listHash == Some(IndexOf(ContactIds(db.contacts[..k])))
      {
        ContactIndexStep(db.contacts, k);
        var _ := ListHashInsert(i, db.contacts[k].id);
        k := k + 1;
        i := i + 1;
      }
      assert db.contacts[..k] == db.contacts;
    }

    method CreateCallIndex(db: Database, book: Book)
      requires IsCallBook(book) && Valid(db)
      modifies this
      ensures Valid(db) && currentBook == book
    {
      hide IndexOf, CallIds, Matching, ContactIds;
      if currentBook == book {
        return;
      }
      currentBook := book;
      ListHashReset();
      var i, k := 1, 0;
      NoCallsNoHandles(db.calls, book);
      while k < |db.calls|
        invariant 0 <= k <= |db.calls| && currentBook == book
        invariant i == 1 + |CallIds(Matching(db.calls[..k], book))|
        invariant listHash == Some(IndexOf(CallIds(Matching(db.calls[..k], book))))
      {
        var row := db.calls[k];
        CallIndexStep(db.calls, book, k);
        var listed := match book
          case ICH => IsIncoming(row.logType)
          case OCH => IsOutgoing(row.logType)
          case MCH => IsMissed(row.logType)
          case _ => IsIncoming(row.logType) || IsOutgoing(row.logType) || IsMissed(row.logType);
        assert listed == Belongs(book, row.logType);
        hide Belongs, IsIncoming, IsOutgoing, IsMissed, IsCallBook;
        if listed {
          var _ := ListHashInsert(i, row.id);
          i := i + 1;
        }
        k := k + 1;
      }
      assert db.calls[..k] == db.calls;
    }

    /** The index of whichever book. */
    method CreateIndex(db: Database, book: Book)
      requires book != NoBook && Valid(db)
      modifies this
      ensures Valid(db) && currentBook == book
    {
      if book == PB {
        CreateContactIndex(db, book);
      } else {
        CreateCallIndex(db, book);
      }
    }

    /** The contacts between two handles, the owner in front if the start is not past it. */
    method GetContactList(db: Database, start: int, end: int, formatted: bool) returns (entries: seq<Entry>)
      requires Valid(db)
      modifies this
      ensures Valid(db) && currentBook == PB
      ensures entries == Listing(db, PB, start, end, formatted)
    {
      hide IndexOf, Ids, EntriesBetween, OwnerEntry;
      entries := [];
      CreateContactIndex(db, PB);
      var startIndex, endIndex := start, end;
      if endIndex < 0 || endIndex < startIndex {
        endIndex := startIndex;
      }
      if startIndex <= 0 {
        entries := entries + [OwnerEntry(db, formatted)];
        startIndex := 1;
      }
      entries := ListFrom(db, PB, entries, startIndex, endIndex, formatted);
    }

    method GetCallList(db: Database, book: Book, start: int, end: int, formatted: bool) returns (entries: seq<Entry>)
      requires IsCallBook(book) && Valid(db)
      modifies this
      ensures Valid(db) && currentBook == book
      ensures entries == Listing(db, book, start, end, formatted)
    {
      CreateCallIndex(db, book);
      var startIndex, endIndex := start, end;
      if endIndex < 0 || endIndex < startIndex {
        endIndex := startIndex;
      }
      if startIndex <= 0 {
        startIndex := 1;
      }
      entries := ListFrom(db, book, [], startIndex, endIndex, formatted);
    }

    /** The loop both listings end in: handles are looked up in the table one by one. */
    method ListFrom(db: Database, book: Book, head: seq<Entry>, startIndex: int, end: int, formatted: bool)
        returns (entries: seq<Entry>)
      requires Valid(db) && currentBook == book != NoBook && startIndex >= 1
      ensures var last := if end < 0 || |Ids(db, book)| < end then |Ids(db, book)| else end;
              entries == head + EntriesBetween(db, book, startIndex, last, formatted)
    {
      var endIndex := end;
      IndexSize(Ids(db, book));
      var hashSize := ListHashSize();
      if endIndex < 0 || hashSize < endIndex {
        endIndex := hashSize;
      }
      entries := head;
      assert head + [] == head;
      hide IndexOf, IdAt, Ids, InfoIn, NameIn;
      var i := startIndex;
      while i <= endIndex
        invariant startIndex <= i && (i <= endIndex + 1 || i == startIndex)
        invariant entries == head + EntriesBetween(db, book, startIndex, i - 1, formatted)
      {
        var id := ListHashLookupId(i);
        IndexLookup(Ids(db, book), i);
        var info := InfoIn(db, book, id);
        Assoc(head, EntriesBetween(db, book, startIndex, i - 1, formatted), [EntryAt(db, book, i, formatted)]);
        entries := entries + [Entry(NameIn(info, formatted), info.number, i)];
        i := i + 1;
      }
    }

    /** The contacts whose name begins with a text. */
    method GetContactListByName(db: Database, text: string, formatted: bool, owner: bool) returns (entries: seq<Entry>)
      requires Valid(db)
      modifies this
      ensures Valid(db) && currentBook == PB
      ensures entries == Found(db, PB, text, formatted, owner)
    {
      hide IndexOf, Ids, FoundUpTo, OwnerEntry;
      entries := [];
      CreateContactIndex(db, PB);
      if owner {
        var o := OwnerEntry(db, formatted);
        if text <= o.name {
          entries := entries + [o];
        }
      }
      entries := FindFrom(db, PB, entries, text, formatted);
    }

    method GetCallListByName(db: Database, book: Book, text: string, formatted: bool) returns (entries: seq<Entry>)
      requires IsCallBook(book) && Valid(db)
      modifies this
      ensures Valid(db) && currentBook == book
      ensures entries == Found(db, book, text, formatted, false)
    {
      CreateCallIndex(db, book);
      entries := FindFrom(db, book, [], text, formatted);
    }

    method FindFrom(db: Database, book: Book, head: seq<Entry>, text: string, formatted: bool)
        returns (entries: seq<Entry>)
      requires Valid(db) && currentBook == book != NoBook
      ensures entries == head + FoundUpTo(db, book, text, |Ids(db, book)|, formatted)
    {
      entries := head;
      IndexSize(Ids(db, book));
      var hashSize := ListHashSize();
      assert head + FoundUpTo(db, book, text, 0, formatted) == head;
      hide IndexOf, IdAt, Ids, InfoIn, NameIn, FoundUpTo;
      var i := 1;
      while i <= hashSize
        invariant 1 <= i <= hashSize + 1
        invariant entries == head + FoundUpTo(db, book, text, i - 1, formatted)
      {
        var id := ListHashLookupId(i);
        IndexLookup(Ids(db, book), i);
        FoundStep(head, db, book, text, i, formatted);
        var info := InfoIn(db, book, id);
        var name := NameIn(info, formatted);
        if text <= name {
          entries := entries + [Entry(name, info.number, i)];
        }
        i := i + 1;
      }
    }

    /** The id a handle of a folder is resolved to. The table is consulted before it is rebuilt, so it
        is still the table of the book listed last. */
    method GetEntryId(db: Database, book: Book, handle: int) returns (id: int)
      requires book != NoBook && Valid(db)
      modifies this
      ensures Valid(db) && currentBook == book
      ensures id == IdAt(Ids(db, old(currentBook)), handle)
    {
      id := ListHashLookupId(handle);
      CreateIndex(db, book);
    }
  }

  // ----- every run -----

  /** A request, or a change of the database together with its notification. */
  datatype Op =
    | List(book: Book, start: int, end: int, formatted: bool)
    | Find(book: Book, text: string, formatted: bool, owner: bool)
    | Fetch(book: Book, handle: int)
    | Change(db: Database)

  datatype Output = Entries(es: seq<Entry>) | Id(id: int) | Nothing

  predicate IsRequest(op: Op) {
    match op
    case List(book, _, _, _) => book != NoBook
    case Find(book, _, _, owner) => book != NoBook && (book != PB ==> !owner)
    case Fetch(book, _) => book != NoBook
    case Change(_) => true
  }

  /** What each step gives with no table at all. A fetch resolves its handle in `last`, the book of
      the last request since the last change. */
  function Uncached(db: Database, last: Book, ops: seq<Op>): seq<Output>
    decreases |ops|
  {
    if ops == [] then []
    else match ops[0]
         case List(book, start, end, formatted) =>
           [Entries(Listing(db, book, start, end, formatted))] + Uncached(db, book, ops[1..])
         case Find(book, text, formatted, owner) =>
           [Entries(Found(db, book, text, formatted, owner))] + Uncached(db, book, ops[1..])
         case Fetch(book, handle) =>
           [Id(IdAt(Ids(db, last), handle))] + Uncached(db, book, ops[1..])
         case Change(db') =>
           [Nothing] + Uncached(db', NoBook, ops[1..])
  }

  /** One step of the agent. */
  method Serve(agent: PbAgent, db: Database, op: Op) returns (out: Output, db': Database)
    requires agent.Valid(db) && IsRequest(op)
    modifies agent
    ensures agent.Valid(db')
    ensures [out] == Uncached(db, old(agent.currentBook), [op])
    ensures db' == (if op.Change? then op.db else db)
    ensures agent.currentBook == (if op.Change? then NoBook else op.book)
  {
    db' := db;
    match op
    case List(book, start, end, formatted) =>
      var es;
      if book == PB {
        es := agent.GetContactList(db, start, end, formatted);
      } else {
        es := agent.GetCallList(db, book, start, end, formatted);
      }
      out := Entries(es);
    case Find(book, text, formatted, owner) =>
      var es;
      if book == PB {
        es := agent.GetContactListByName(db, text, formatted, owner);
      } else {
        es := agent.GetCallListByName(db, book, text, formatted);
      }
      out := Entries(es);
    case Fetch(book, handle) =>
      var id := agent.GetEntryId(db, book, handle);
      out := Id(id);
    case Change(next) =>
      agent.Clear();
      out := Nothing;
      db' := next;
  }

  lemma UncachedStep(db: Database, last: Book, op: Op, rest: seq<Op>)
    ensures Uncached(db, last, [op] + rest) ==
            Uncached(db, last, [op]) +
            Uncached(if op.Change? then op.db else db, if op.Change? then NoBook else op.book, rest)
  {
    hide Listing, Found, Ids, IdAt;
    assert ([op] + rest)[1..] == rest && [op][1..] == [];
  }

  /** Every run of requests and changes gives, step by step, what it gives without the cache. */
  method Run(db: Database, ops: seq<Op>) returns (outs: seq<Output>)
    requires forall i :: 0 <= i < |ops| ==> IsRequest(ops[i])
    ensures outs == Uncached(db, NoBook, ops)
  {
    hide Listing, Found, Ids, IdAt;
    var agent := new PbAgent();
    var now := db;
    outs := [];
    var k := 0;
    assert ops[0..] == ops;
    while k < |ops|
      invariant 0 <= k <= |ops| && fresh(agent) && agent.Valid(now)
      invariant outs + Uncached(now, agent.currentBook, ops[k..]) == Uncached(db, NoBook, ops)
    {
      ghost var was := outs;
      assert ops[k..] == [ops[k]] + ops[k + 1..];
      UncachedStep(now, agent.currentBook, ops[k], ops[k + 1..]);
      var out;
      out, now := Serve(agent, now, ops[k]);
      outs := outs + [out];
      k := k + 1;
      Assoc(was, [out], Uncached(now, agent.currentBook, ops[k..]));
    }
    assert ops[k..] == [];
  }

  // ----- what the numbers mean -----

  lemma {:induction false} EntriesBetweenAt(db: Database, book: Book, lo: int, hi: int, formatted: bool, h: int)
    ensures |EntriesBetween(db, book, lo, hi, formatted)| == if lo > hi then 0 else hi - lo + 1
    ensures lo <= h <= hi ==> EntriesBetween(db, book, lo, hi, formatted)[h - lo] == EntryAt(db, book, h, formatted)
    decreases hi - lo
  {
    hide EntryAt;
    if lo <= hi {
      EntriesBetweenAt(db, book, lo, hi - 1, formatted, h);
    }
  }

  /** The database after a run. */
  function Latest(db: Database, ops: seq<Op>): Database
    decreases |ops|
  {
    if ops == [] then db else Latest(if ops[0].Change? then ops[0].db else db, ops[1..])
  }

  /** The book of the last request of a run, none if the database has changed since. */
  function Current(last: Book, ops: seq<Op>): Book
    decreases |ops|
  {
    if ops == [] then last else Current(if ops[0].Change? then NoBook else ops[0].book, ops[1..])
  }

  /** At the end of any run a fetch resolves its handle in the book of the last request. */
  lemma {:induction false} FetchAfterRun(db: Database, last: Book, ops: seq<Op>, book: Book, h: int)
    ensures |Uncached(db, last, ops)| == |ops|
    ensures Uncached(db, last, ops + [Fetch(book, h)]) ==
            Uncached(db, last, ops) + [Id(IdAt(Ids(Latest(db, ops), Current(last, ops)), h))]
    decreases |ops|
  {
    hide Ids, IdAt, Listing, Found;
    var all := ops + [Fetch(book, h)];
    if ops == [] {
      assert all == [Fetch(book, h)] && all[1..] == [];
    } else {
      var now, used := if ops[0].Change? then ops[0].db else db, if ops[0].Change? then NoBook else ops[0].book;
      FetchAfterRun(now, used, ops[1..], book, h);
      assert all == [ops[0]] + (ops[1..] + [Fetch(book, h)]) && ops == [ops[0]] + ops[1..];
      UncachedStep(db, last, ops[0], ops[1..]);
      UncachedStep(db, last, ops[0], ops[1..] + [Fetch(book, h)]);
      hide Uncached, Latest, Current;
      Assoc(Uncached(db, last, [ops[0]]), Uncached(now, used, ops[1..]),
            [Id(IdAt(Ids(Latest(now, ops[1..]), Current(used, ops[1..])), h))]);
    }
  }

  predicate Unchanged(ops: seq<Op>) {
    forall i :: 0 <= i < |ops| ==> !ops[i].Change?
  }

  lemma {:induction false} LatestUnchanged(db: Database, ops: seq<Op>)
    requires Unchanged(ops)
    ensures Latest(db, ops) == db
    decreases |ops|
  {
    if ops != [] {
      LatestUnchanged(db, ops[1..]);
    }
  }

  // ----- what a line holds -----

  /** The line of a handle, made from the contact or call with that id: its number, and its formatted
      name or its structured one. Of an id that is not known nothing is shown. */
  predicate IsLineOf(e: Entry, db: Database, book: Book, id: int, h: int, formatted: bool) {
    var infos := if book == PB then db.contactInfo else db.callInfo;
    e.handle == h &&
    if id in infos then
      e.number == infos[id].number && e.name == if formatted then infos[id].fn else infos[id].name
    else e.number == "" && e.name == ""
  }

  lemma EntryIsLine(db: Database, book: Book, h: int, formatted: bool)
    requires 1 <= h <= |Ids(db, book)|
    ensures IsLineOf(EntryAt(db, book, h, formatted), db, book, Ids(db, book)[h - 1], h, formatted)
  {
    hide Ids;
  }

  /** The owner's line has handle 0; "formatted" shows the owner's other name. */
  predicate IsOwnerLine(e: Entry, db: Database, formatted: bool) {
    e.handle == 0 && e.number == db.owner.number && e.name == if formatted then db.owner.name else db.owner.fn
  }

  /** A listing is the owner's line, if the start is not past it, and then the lines of the handles from
      the start on, one after the other, each of the id it stands for. */
  lemma ListingIs(db: Database, book: Book, start: int, end: int, formatted: bool)
    ensures var es, owner := Listing(db, book, start, end, formatted), if book == PB && start <= 0 then 1 else 0;
            var lo, hi := FirstHandle(start), LastHandle(start, end, |Ids(db, book)|);
            |es| == owner + (if lo > hi then 0 else hi - lo + 1) && 1 <= lo && hi <= |Ids(db, book)| &&
            (owner == 1 ==> IsOwnerLine(es[0], db, formatted)) &&
            forall i :: owner <= i < |es| ==>
              IsLineOf(es[i], db, book, Ids(db, book)[lo + i - owner - 1], lo + i - owner, formatted)
  {
    hide Ids, EntryAt;
    var es, owner := Listing(db, book, start, end, formatted), if book == PB && start <= 0 then 1 else 0;
    var lo, hi := FirstHandle(start), LastHandle(start, end, |Ids(db, book)|);
    EntriesBetweenAt(db, book, lo, hi, formatted, lo);
    hide IsLineOf, IsOwnerLine;
    assert owner == 1 ==> IsOwnerLine(es[0], db, formatted) by { OwnerIsLine(db, formatted); }
    forall i | owner <= i < |es|
      ensures IsLineOf(es[i], db, book, Ids(db, book)[lo + i - owner - 1], lo + i - owner, formatted)
    {
      EntriesBetweenAt(db, book, lo, hi, formatted, lo + i - owner);
      EntryIsLine(db, book, lo + i - owner, formatted);
    }
  }

  lemma OwnerIsLine(db: Database, formatted: bool)
    ensures IsOwnerLine(OwnerEntry(db, formatted), db, formatted)
  {
  }

  /** What a search finds are lines of handles, in order, whose name begins with the text. */
  lemma {:induction false} FoundAreLines(db: Database, book: Book, text: string, hi: nat, formatted: bool, j: nat)
    requires hi <= |Ids(db, book)| && j < |FoundUpTo(db, book, text, hi, formatted)|
    ensures var es := FoundUpTo(db, book, text, hi, formatted);
            var h := es[j].handle;
            1 <= h <= hi && IsLineOf(es[j], db, book, Ids(db, book)[h - 1], h, formatted) && text <= es[j].name &&
            (j > 0 ==> es[j - 1].handle < h)
  {
    hide Ids, EntryAt, IsLineOf;
    var before := FoundUpTo(db, book, text, hi - 1, formatted);
    EntryIsLine(db, book, hi, formatted);
    assert EntryAt(db, book, hi, formatted).handle == hi by { HandleOfEntry(db, book, hi, formatted); }
    if j < |before| {
      FoundAreLines(db, book, text, hi - 1, formatted, j);
    } else if j > 0 {
      FoundAreLines(db, book, text, hi - 1, formatted, j - 1);
    }
  }

  lemma HandleOfEntry(db: Database, book: Book, h: int, formatted: bool)
    ensures EntryAt(db, book, h, formatted).handle == h
  {
    hide InfoIn;
  }

  /** And no such line is missed. */
  lemma {:induction false} NoneIsMissed(db: Database, book: Book, text: string, hi: nat, formatted: bool, h: nat,
                                        e: Entry)
    requires 1 <= h <= hi <= |Ids(db, book)|
    requires IsLineOf(e, db, book, Ids(db, book)[h - 1], h, formatted) && text <= e.name
    ensures e in FoundUpTo(db, book, text, hi, formatted)
  {
    if h < hi {
      hide Ids, IsLineOf, EntryAt;
      NoneIsMissed(db, book, text, hi - 1, formatted, h, e);
    } else {
      EntryIsLine(db, book, h, formatted);
      hide Ids, EntryAt;
      assert e == EntryAt(db, book, h, formatted);
      assert FoundUpTo(db, book, text, hi, formatted)[|FoundUpTo(db, book, text, hi - 1, formatted)|] == e;
    }
  }

  /** A search gives the owner's line, if that is asked for and its name begins with the text, and then
      what it finds. */
  lemma SearchIs(db: Database, book: Book, text: string, formatted: bool, owner: bool, o: Entry)
    requires IsOwnerLine(o, db, formatted)
    ensures Found(db, book, text, formatted, owner) ==
            (if book == PB && owner && text <= o.name then [o] else []) +
            FoundUpTo(db, book, text, |Ids(db, book)|, formatted)
  {
    hide Ids, FoundUpTo;
    assert o == OwnerEntry(db, formatted);
  }

  /** The line of a listed handle is that of its id. */
  lemma ListedLine(db: Database, book: Book, start: int, end: int, formatted: bool, h: int) returns (i: nat)
    requires FirstHandle(start) <= h <= LastHandle(start, end, |Ids(db, book)|)
    ensures var es := Listing(db, book, start, end, formatted); i < |es| && es[i] == EntryAt(db, book, h, formatted)
  {
    hide Ids, InfoIn, NameIn;
    var lo, hi := FirstHandle(start), LastHandle(start, end, |Ids(db, book)|);
    EntriesBetweenAt(db, book, lo, hi, formatted, h);
    i := (if book == PB && start <= 0 then 1 else 0) + (h - lo);
  }

  /** A handle that was listed, fetched at any later time while its book is the current one and the
      database has not changed, resolves to the id its line was made from, whatever was listed,
      searched for or fetched in between. */
  lemma ListedHandleResolves(db: Database, last: Book, book: Book, start: int, end: int, formatted: bool, mid: seq<Op>,
                             folder: Book, h: int)
    requires FirstHandle(start) <= h <= LastHandle(start, end, |Ids(db, book)|)
    requires Unchanged(mid) && Current(book, mid) == book
    ensures var outs := Uncached(db, last, [List(book, start, end, formatted)] + mid + [Fetch(folder, h)]);
            |outs| == |mid| + 2 && outs[0].Entries? && outs[|mid| + 1].Id? &&
            outs[|mid| + 1].id == Ids(db, book)[h - 1] &&
            exists i :: 0 <= i < |outs[0].es| && IsLineOf(outs[0].es[i], db, book, outs[|mid| + 1].id, h, formatted)
  {
    var op := List(book, start, end, formatted);
    var i := ListedLine(db, book, start, end, formatted, h);
    FetchAfterRun(db, last, [op] + mid, folder, h);
    LatestUnchanged(db, mid);
    assert ([op] + mid)[0] == op && ([op] + mid)[1..] == mid;
    EntryIsLine(db, book, h, formatted);
    hide Ids, EntryAt, Listing, Found, IsLineOf;
    assert Uncached(db, last, [op] + mid)[0] == Entries(Listing(db, book, start, end, formatted));
  }

  /** A fetch right after a change, from a folder that was not listed since, gives the owner's id
      whatever the handle. */
  lemma FetchBeforeListing(db: Database, next: Database, book: Book, h: int)
    ensures Uncached(db, book, [Change(next), Fetch(book, h)]) == [Nothing, Id(0)]
  {
    var ops := [Change(next), Fetch(book, h)];
    assert ops[1..] == [Fetch(book, h)] && ops[1..][1..] == [];
    assert Uncached(next, NoBook, ops[1..]) == [Id(0)];
  }

  /** From a start of 0 on a listing is the window of handles it asks for; only below that does a
      negative end list everything. */
  lemma ListedWindow(start: int, end: int, size: nat, h: int)
    requires 1 <= h <= size
    ensures start >= 0 ==>
              (FirstHandle(start) <= h <= LastHandle(start, end, size) <==> start <= h && (h <= end || h <= start))
    ensures start < 0 ==>
              (FirstHandle(start) <= h <= LastHandle(start, end, size) <==> end < 0 || h <= end)
  {
  }

  /** Pull and index number alike: the call pulled alone at offset `h` is that of one row of the book,
      and this is the row whose id the index has under handle `h` if and only if each of the first `h`
      rows has a vCard. */
  lemma PulledCallIsIndexed(db: Database, book: Book, h: nat)
    requires IsCallBook(book) && (book == MCH ==> MissedListAgrees(db)) && 1 <= h <= |CallBook(db, book)|
    ensures var rows := Matching(db.calls, book);
            var at := PulledRow(CallVcards(rows), h);
            h - 1 <= at < |rows| && rows[at].vcard.Some? && CallPull(db, book, 1, h) == [rows[at].vcard.value] &&
            h in IndexOf(Ids(db, book)) && IndexOf(Ids(db, book))[h] == rows[h - 1].id &&
            (at == h - 1 <==> forall i :: 0 <= i < h ==> rows[i].vcard.Some?)
  {
    hide CallPull, CallBook, MissedListAgrees;
    PulledCall(db, book, h);
    hide Matching, PulledRow;
  }

  /** The same for the contacts behind the owner. */
  lemma PulledContactIsIndexed(db: Database, h: nat)
    requires 1 <= h <= |ContactCards(db.contacts)|
    ensures var rows := db.contacts;
            var at := PulledRow(ContactVcards(rows), h);
            h - 1 <= at < |rows| && rows[at].vcard.Some? && ContactPull(db, 1, h) == [rows[at].vcard.value] &&
            h in IndexOf(Ids(db, PB)) && IndexOf(Ids(db, PB))[h] == rows[h - 1].id &&
            (at == h - 1 <==> forall i :: 0 <= i < h ==> rows[i].vcard.Some?)
  {
    hide ContactPull;
    PulledContact(db, h);
    hide PulledRow;
  }
}
