/** The contact and call-log rows the phonebook agent iterates over. */
module PhonebookStore {
  import opened Text

  datatype LogType =
    | VoiceIncoming | VideoIncoming
    | VoiceOutgoing | VideoOutgoing
    | VoiceIncomingUnseen | VoiceIncomingSeen | VideoIncomingUnseen | VideoIncomingSeen
    | OtherLog

  predicate IsIncoming(t: LogType) {
    t == VoiceIncoming || t == VideoIncoming
  }

  predicate IsOutgoing(t: LogType) {
    t == VoiceOutgoing || t == VideoOutgoing
  }

  predicate IsMissed(t: LogType) {
    t == VoiceIncomingUnseen || t == VoiceIncomingSeen || t == VideoIncomingUnseen || t == VideoIncomingSeen
  }

  /** A row, and the vCard the contact service makes of it, if any. */
  datatype ContactRow = ContactRow(id: int, vcard: Option<string>)
  datatype CallRow = CallRow(id: int, logType: LogType, vcard: Option<string>)

  /** What is listed of a contact or call. */
  datatype Info = Info(fn: string, name: string, number: string)

  datatype Database = Database(
    contacts: seq<ContactRow>,
    calls: seq<CallRow>,
    missed: seq<CallRow>,  // the service's own list of missed calls
    ownerVcard: string,
    owner: Info,
    contactInfo: map<int, Info>,
    callInfo: map<int, Info>)

  datatype Book = NoBook | PB | ICH | OCH | MCH | CCH

  predicate IsCallBook(book: Book) {
    book == ICH || book == OCH || book == MCH || book == CCH
  }

  /** One field of each row, in order. */
  function FieldOf<R, V>(rows: seq<R>, of: R -> V): (r: seq<V>)
    ensures |r| == |rows|
    ensures forall i :: 0 <= i < |rows| ==> r[i] == of(rows[i])
  {
    if rows == [] then [] else [of(rows[0])] + FieldOf(rows[1..], of)
  }

  /** Whether a call is in a call-history book. */
  predicate Belongs(book: Book, t: LogType) {
    match book
    case ICH => IsIncoming(t)
    case OCH => IsOutgoing(t)
    case MCH => IsMissed(t)
    case CCH => IsIncoming(t) || IsOutgoing(t) || IsMissed(t)
    case _ => false
  }

  /** The rows of a book, in the order of the log. */
  function Matching(rows: seq<CallRow>, book: Book): seq<CallRow> {
    if rows == [] then []
    else
      var n := |rows| - 1;
      Matching(rows[..n], book) + if Belongs(book, rows[n].logType) then [rows[n]] else []
  }

  lemma MatchingSnoc(rows: seq<CallRow>, book: Book, k: nat)
    requires k < |rows|
    ensures Matching(rows[..k + 1], book) ==
            Matching(rows[..k], book) + if Belongs(book, rows[k].logType) then [rows[k]] else []
  {
    assert rows[..k + 1][..k] == rows[..k];
  }

  /** Every call of the combined book is in exactly one of the other three. */
  lemma {:induction false} BooksPartition(rows: seq<CallRow>)
    ensures |Matching(rows, CCH)| == |Matching(rows, ICH)| + |Matching(rows, OCH)| + |Matching(rows, MCH)|
  {
    if rows != [] {
      BooksPartition(rows[..|rows| - 1]);
    }
  }

  // ----- which rows a book holds -----

  /** By the type of the row: incoming, outgoing, missed, or any of them. */
  predicate IsListed(book: Book, t: LogType) {
    match t
    case VoiceIncoming => book == ICH || book == CCH
    case VideoIncoming => book == ICH || book == CCH
    case VoiceOutgoing => book == OCH || book == CCH
    case VideoOutgoing => book == OCH || book == CCH
    case VoiceIncomingUnseen => book == MCH || book == CCH
    case VoiceIncomingSeen => book == MCH || book == CCH
    case VideoIncomingUnseen => book == MCH || book == CCH
    case VideoIncomingSeen => book == MCH || book == CCH
    case OtherLog => false
  }

  /** The rows of a list that satisfy a condition, in order. */
  ghost predicate Selects(rows: seq<CallRow>, book: Book, out: seq<CallRow>)
    decreases |rows|
  {
    if rows == [] then out == []
    else if IsListed(book, rows[0].logType) then out != [] && out[0] == rows[0] && Selects(rows[1..], book, out[1..])
    else Selects(rows[1..], book, out)
  }

  lemma {:induction false} SelectsSnoc(rows: seq<CallRow>, book: Book, out: seq<CallRow>, r: CallRow)
    requires Selects(rows, book, out)
    ensures Selects(rows + [r], book, out + if IsListed(book, r.logType) then [r] else [])
    decreases |rows|
  {
    var more := out + if IsListed(book, r.logType) then [r] else [];
    if rows == [] {
      assert rows + [r] == [r] && [r][1..] == [];
    } else {
      assert (rows + [r])[0] == rows[0] && (rows + [r])[1..] == rows[1..] + [r];
      if IsListed(book, rows[0].logType) {
        SelectsSnoc(rows[1..], book, out[1..], r);
        assert more[1..] == out[1..] + if IsListed(book, r.logType) then [r] else [];
      } else {
        SelectsSnoc(rows[1..], book, out, r);
      }
    }
  }

  /** A book holds exactly the rows of its types, in the order of the log. */
  lemma {:induction false} BookHolds(rows: seq<CallRow>, book: Book)
    ensures Selects(rows, book, Matching(rows, book))
    decreases |rows|
  {
    if rows != [] {
      var n := |rows| - 1;
      BookHolds(rows[..n], book);
      SelectsSnoc(rows[..n], book, Matching(rows[..n], book), rows[n]);
      assert rows[..n] + [rows[n]] == rows;
    }
  }
}
