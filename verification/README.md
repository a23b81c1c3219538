# Bluetooth framework: a verified model

A Dafny model of five parts of the Bluetooth framework and proofs of what they keep.

* **The vCard text engine** of the phonebook agent: the quoted-printable encoder with its running line
  position, soft breaks and word wrapping (proved against decoders of section 6.7 of RFC 2045, with and without
  its rule 3), the property writer, the `;` escaper (the structured form of section 2.5 of RFC 2426), the base64 folder, and the
  in-place remover over folded text (section 5.8.1 of RFC 2425) with the attribute filter built on it.
* **The phonebook index and paging**: the cached handle-to-id table, rebuilt when the book changes and thrown
  away when the database does, and the windowed pulls (section 5.1.4 of the Phone Book Access Profile 1.1).
* **The pairing agent**: one stored D-Bus invocation, four kinds of requests, their replies, remote cancels,
  mode requests, and the discoverable timer.
* **Bonding** in the library, with its one automatic headset retry, and how it works together with the agent's
  one-shot "ignore auto pairing" flag.
* **The address codec**: bytes, text and object path.

Code that works in place is modelled in place: `Text.GString` is the buffer that is appended to and erased
from, `PhonebookIndex.PbAgent`, `PairingAgent.CoreAgent`, `Bonding.BtInfo` and `DiscoverableTimer.Timer` are
objects whose methods update fields. Each method is tied to a function of its inputs or of the old state, and
the results are proved about those functions: a decoder for the encoder, logical lines for the remover, a
cacheless agent for the cached one, a history of answers and events for the two protocols.

Text is a sequence of octets (one `char` each) without the terminating NUL; a pointer read past the end gives
NUL. What the environment decides (properties of a device, whether a call can be sent, the database) is a
parameter of the step.

Modules: `Text`, `Utf8`; `QuotedPrintable` (decoder, layout, round trip), `QpSpelling`, `QpLayout`, `QpWords` and
`QpTrailing` (octets, lines, characters, words, blanks at line ends), `QpEncoder` (the loops); `PropertyStream`;
`LogicalLines`, `PropertyRemover`, `VcardFilter`; `StructuredValue`; `Base64Fold`; `PhonebookStore`, `PhonebookPull`,
`PhonebookIndex`; `PairingAgent`, `PairingAnswers` and `PairingOutcomes` (runs, single steps), `DiscoverableTimer`;
`Bonding` and `BondingOutcomes`; `Address`.

## Main results

* Encoder: `QuotedPrintable.DecodeOfEncoded`, `QpSpelling.EncodingSpells`, `QpTrailing.TrimmingDecodeIff`,
  `QpLayout.EncodedLinesFit`, `QpLayout.CharactersStayWhole`, `QpWords.WordsStayWhole`, reached by the loops of
  `QpEncoder.Encode`.
* Properties: `PropertyStream.UnlabelledStreamReads`, `PropertyStream.StreamReadsIff`,
  `PropertyStream.ReadsBackIff`, `PropertyStream.LabelledIff` and `PropertyStream.OnlyTextIsWritten`.
* Remover and filter: `PropertyRemover.RemoveProperty`, `VcardFilter.FilterV30`, `VcardFilter.OrderDoesNotMatter`,
  `VcardFilter.FilterIsSetOperation`, `VcardFilter.AllGoneIff`, `VcardFilter.ClearBitIff`.
* Structured values and base64: `StructuredValue.StructuredReadsBackIff`, `Base64Fold.UnfoldsBack`,
  `Base64Fold.FoldedLines`.
* Phonebook: `PhonebookIndex.Run`, `PhonebookIndex.ListedHandleResolves`, `PhonebookIndex.ListingIs`,
  `PhonebookPull.PagingIsComplete`, `PhonebookPull.SizesAreConserved`, `PhonebookPull.SizeIsPullIff`,
  `PhonebookIndex.PulledCallIsIndexed`.
* Pairing: `PairingAnswers.AtMostOneAnswerIff` and `PairingAnswers.AtMostOneAnswer` over runs;
  `PairingOutcomes.ConfirmationIsLeftToUser`, `PairingOutcomes.PinRequestIs`, `PairingOutcomes.AuthorizationIs` and
  `PairingOutcomes.PairingReplyIs` for what one call comes to.
* Bonding: `Bonding.OneAutomaticRetry`, `Bonding.AnswerFinishesIff`,
  `Bonding.RetriedHeadsetIsAskedInEveryRun`, `BondingOutcomes.AnswerIsReported` and `BondingOutcomes.SuccessIff`.
* Addresses: `Address.PathRoundTripIff` and `Address.ParsePrinted`.

The other rows of the table below support these: the steps of a loop or a protocol, the methods that carry them
out, and what one decision comes to. `PairingAgent` in particular holds the steps and their methods only; what
each step comes to, in terms of the device and the arguments alone, stands in `PairingOutcomes`, and what is true of
its runs in `PairingAnswers` and `Bonding`.

## Where the code is not what one would expect

Each of these is a proved statement about the code as it is.

* An answered mode request stays stored, so any reply that comes before the next request answers it a second
  time (`PairingAnswers.ModeAnsweredTwice`); this is the only way to a second answer
  (`PairingAnswers.AtMostOneAnswerIff`). The "rejected by remote cancel" error is never sent while the callbacks
  are installed: their own reply has already settled the request (`PairingAnswers.CancelAnswersOnce`).
* An encoded value that ends in a blank or a newline leaves a blank at the end of its last line, which a decoder
  by the letter of section 6.7 deletes (`QpTrailing.TrimmingDecodeIff`).
* When a request that is to be made again cannot be sent, no final result is reported
  (`Bonding.AnswerFinishesIff`); after the automatic second bonding no timer is left either, and only the device
  becoming paired otherwise would still be reported (`Bonding.RetryGoesOutIff`).
* A property name that is itself folded is not recognised by the remover (`LogicalLines.FoldedNameEscapes`), and
  a matching last line without its CRLF stays (`VcardFilter.AllGoneIff`).
* A component that ends in `\` swallows the separator behind it: `\` is not escaped
  (`StructuredValue.StructuredReadsBackIff`).
* For call books offset 0 means 1, so the window after the first one repeats its last entry
  (`PhonebookPull.OffsetZeroRepeats`). A maximum count of 0 at offset 0 still pulls the owner's card.
* A fetch looks its handle up before the table is rebuilt, so right after a change it gives id 0
  (`PhonebookIndex.FetchBeforeListing`); with a start below 0 a negative end, compared unsigned, lists
  everything (`PhonebookIndex.ListedWindow`); the owner's two names are chosen the other way round.

Two more hold of the functions, but not of what they are given. A plain value with `=` in it is misread under
parameters that claim quoted-printable (`PropertyStream.ReadsBackIff`, `PropertyStream.NoteSwallowsUrl`), and no
caller passes such parameters. An adapter path that holds "dev_" hides some device's address
(`Address.SomePathFails`), and the paths BlueZ gives its adapters hold none.

## Model

| member | source | states |
|---|---|---|
| QuotedPrintable.DecodeOfEncoded | bluetooth-pb-agent/bluetooth_pb_vcard.c:389-508 | for every well-formed UTF-8 text, a section 6.7 decoder that keeps blanks at the ends of lines gets back from the encoding exactly the text, each CR, LF or CRLF turned into CRLF and the continuation space |
| QpSpelling.EncodingSpells | bluetooth-pb-agent/bluetooth_pb_vcard.c:353-508 | apart from its soft breaks the output spells the newline-normalised text octet by octet: a tab and printable ASCII other than '=' as itself, every other octet as =XX in upper case |
| QpSpelling.NewlinesNormalised | bluetooth-pb-agent/bluetooth_pb_vcard.c:479-499 | CRLF, a CR alone and an LF alone each count as one newline, CRLF and a blank; every other octet stays |
| QpSpelling.NewlineWritten | bluetooth-pb-agent/bluetooth_pb_vcard.c:483-489 | a newline is =0D=0A, a soft break and a blank, behind a soft break of its own exactly from column 70 on |
| QpTrailing.TrimmingDecodeIff | bluetooth-pb-agent/bluetooth_pb_vcard.c:389-508 | a decoder that deletes the blanks at the ends of lines, as rule 3 of section 6.7 has it, gets the same back if and only if the text does not end in a blank or a newline |
| QpTrailing.LastBlankIsLost | bluetooth-pb-agent/bluetooth_pb_vcard.c:449-508 | an accented letter and a blank do not survive such a decoder |
| QpTrailing.TrimmedTokens | bluetooth-pb-agent/bluetooth_pb_vcard.c:389-508 | deleting the blanks at the ends of lines takes from the output just those at its very end |
| QpTrailing.OnlySoftBreaks | bluetooth-pb-agent/bluetooth_pb_vcard.c:449-508 | every output line but the last ends in '=', so no other line can end in a blank |
| QpTrailing.EncodingEndsInUnit | bluetooth-pb-agent/bluetooth_pb_vcard.c:449-508 | the output for a text that is not empty ends neither in '=' nor in a soft break |
| QuotedPrintable.PiecesTextIs | bluetooth-pb-agent/bluetooth_pb_vcard.c:449-508 | the segments the encoder cuts a text into are that text with its newlines normalised: nothing lost, nothing reordered |
| QpLayout.EncodedLinesFit | bluetooth-pb-agent/bluetooth_pb_vcard.c:353-508 | no output line is over 76 octets with its trailing '=', and the line position carried is exactly the number of octets since the last CRLF, at most 75 |
| QpLayout.CharactersStayWhole | bluetooth-pb-agent/bluetooth_pb_vcard.c:389-508 | every output line decodes on its own to whole characters and whole newline pairs, and the lines so decoded put together are the text |
| QpLayout.WordCutIff | bluetooth-pb-agent/bluetooth_pb_vcard.c:402-411 | a word is printed in one piece, after at most one soft break, if and only if its encoded size is at most 75 and it does not fill a line whose first column is taken |
| QpLayout.WordStaysIff | bluetooth-pb-agent/bluetooth_pb_vcard.c:402-411 | a word stays on its line without a break if and only if it ends by column 75; if it does not, it starts on a new line unless it is at the head of one |
| QpLayout.UncutIff | bluetooth-pb-agent/bluetooth_pb_vcard.c:413-446 | printed from a given column, a run of characters gets no soft break if and only if it ends by column 75 |
| QpLayout.WidthIsSize | bluetooth-pb-agent/bluetooth_pb_vcard.c:304-350 | the size computed for a segment is the number of octets it takes when printed without breaks |
| QpWords.WordsStayWhole | bluetooth-pb-agent/bluetooth_pb_vcard.c:389-508 | wherever a blank-delimited word of encoded size at most 74 stands in a text, it stands in the encoding unbroken, with the text before and after it encoded around it |
| QpEncoder.EncodeCheck | bluetooth-pb-agent/bluetooth_pb_vcard.c:285-301 | a value needs encoding exactly when it holds an octet outside the printable ASCII range |
| QpEncoder.EncodeStrlen | bluetooth-pb-agent/bluetooth_pb_vcard.c:304-350 | the counting loop gives the total width of the segment's units |
| QpEncoder.AppendToHex | bluetooth-pb-agent/bluetooth_pb_vcard.c:353-373 | the triples of one character are appended together, after a soft break if they would pass the limit, and the line position follows |
| QpEncoder.AppendPrintableC | bluetooth-pb-agent/bluetooth_pb_vcard.c:376-387 | one printable octet is appended, after a soft break if the line is full, and the line position follows |
| QpEncoder.AppendUnits | bluetooth-pb-agent/bluetooth_pb_vcard.c:413-446 | the loop over a segment appends each unit once and in order, leaving the exact column |
| QpEncoder.AppendSegment | bluetooth-pb-agent/bluetooth_pb_vcard.c:389-447 | a segment that does not fit on the line but would fit on one of its own starts on a new line |
| QpEncoder.AppendNewline | bluetooth-pb-agent/bluetooth_pb_vcard.c:483-489 | a newline is the pair =0D=0A, kept whole, a soft break and the continuation space |
| QpEncoder.EncodeStep | bluetooth-pb-agent/bluetooth_pb_vcard.c:463-505 | one turn of the scan keeps: what is printed is the layout of the pieces passed, what is left is the layout of the rest, and the line position is the true column within the limit |
| QpEncoder.Encode | bluetooth-pb-agent/bluetooth_pb_vcard.c:449-508 | the scanning loop computes the layout the round trip and the line bounds are proved of |
| PropertyStream.AppendParam | bluetooth-pb-agent/bluetooth_pb_vcard.c:542-561 | a parameter is appended behind one ';', its own leading ';' dropped, and nothing if that leaves nothing |
| PropertyStream.ParamWritten | bluetooth-pb-agent/bluetooth_pb_vcard.c:542-561 | what is appended is one ';' and the parameter from its first octet that is no ';' on, and nothing if there is no such octet |
| PropertyStream.AppendProperty | bluetooth-pb-agent/bluetooth_pb_vcard.c:563-600 | one property line is appended: name, parameters, the encoding label exactly when the value is encoded, value, CRLF |
| PropertyStream.OnlyTextIsWritten | bluetooth-pb-agent/bluetooth_pb_vcard.c:563-600 | with a name and a parameter of text, every octet of the written property is CR, LF, tab or from ' ' to '~', whatever the UTF-8 value holds |
| PropertyStream.LabelledIff | bluetooth-pb-agent/bluetooth_pb_vcard.c:576-589 | the written parameters say quoted-printable if and only if some octet of the value is below 32 or above 126; if none is, the value is written as it is and no parameter is added |
| PropertyStream.LabelsInOrder | bluetooth-pb-agent/bluetooth_pb_vcard.c:576-589 | a value with such an octet is written encoded, behind ENCODING=QUOTED-PRINTABLE and CHARSET=utf-8 in that order |
| PropertyStream.HeaderSplits | bluetooth-pb-agent/bluetooth_pb_vcard.c:542-583 | splitting a header at ';' gives back the name and the parameters in order, and no ':' is in it |
| PropertyStream.EncodedEnds | bluetooth-pb-agent/bluetooth_pb_vcard.c:585-597 | the first CRLF that is not a soft break after a rendering of valid tokens is the one that ends its line |
| PropertyStream.OneReads | bluetooth-pb-agent/bluetooth_pb_vcard.c:563-600 | the reader recovers name, parameters and value of one line and stops where the next line begins |
| PropertyStream.StreamReads | bluetooth-pb-agent/bluetooth_pb_vcard.c:563-600 | any sequence of properties written one after the other reads back as that sequence, values newline-normalised |
| PropertyStream.UnlabelledStreamReads | bluetooth-pb-agent/bluetooth_pb_vcard.c:563-600 | whatever the values, a stream of properties whose own parameters lack the quoted-printable label, as all the callers' do, reads back as what was written |
| PropertyStream.ReadsBackIff | bluetooth-pb-agent/bluetooth_pb_vcard.c:563-600 | whatever is written behind it, a property reads back, and the reader stops where the next begins, if and only if it is not a plain value with '=' under parameters that claim quoted-printable |
| PropertyStream.SwallowsNext | bluetooth-pb-agent/bluetooth_pb_vcard.c:563-600 | a plain value that ends in '=' under a quoted-printable label runs on into the text behind it |
| PropertyStream.NoneInvented | bluetooth-pb-agent/bluetooth_pb_vcard.c:563-600 | however many properties of a stream are misread, it never reads as more properties than were written |
| PropertyStream.StreamReadsIff | bluetooth-pb-agent/bluetooth_pb_vcard.c:563-600 | a stream of properties without line breaks in their headers reads back as what was written if and only if none of them is misread |
| PropertyStream.NoteSwallowsUrl | bluetooth-pb-agent/bluetooth_pb_vcard.c:563-600 | what the writer would do with parameters no caller gives it: a NOTE of "a=" under a quoted-printable label and a URL behind it do not read back |
| LogicalLines.ConcatOfLogical | bluetooth-pb-agent/bluetooth_pb_vcard.c:1074-1123 | the logical lines of a text put together are the text |
| LogicalLines.LogicalIsCut | bluetooth-pb-agent/bluetooth_pb_vcard.c:1087-1122 | the logical lines are the text cut at every CRLF that neither a space nor a tab follows, and nowhere else |
| LogicalLines.NameOfAt | bluetooth-pb-agent/bluetooth_pb_vcard.c:1095-1103 | the name of a line is what stands before its first ':' or ';', upper-cased |
| LogicalLines.NamelessIff | bluetooth-pb-agent/bluetooth_pb_vcard.c:1095-1103 | a line has no name if and only if it holds neither |
| LogicalLines.SameUpperIff | bluetooth-pb-agent/bluetooth_pb_vcard.c:1095-1103 | two names agree upper-cased if and only if they have the same length and each two octets are the same or the same ASCII letter in two cases |
| LogicalLines.NameOfFolded | bluetooth-pb-agent/bluetooth_pb_vcard.c:1095-1103 | a logical line is taken for a property if and only if its unfolded name, upper-cased, is the property's and the name is not broken by a fold |
| LogicalLines.FoldedNameEscapes | bluetooth-pb-agent/bluetooth_pb_vcard.c:1095-1103 | a line whose name is TEL once unfolded but is not recognised |
| PropertyRemover.Advance | bluetooth-pb-agent/bluetooth_pb_vcard.c:1087-1122 | one turn of the loop keeps what is still to be removed, and either the text gets shorter or the cursor moves on |
| PropertyRemover.RemoveProperty | bluetooth-pb-agent/bluetooth_pb_vcard.c:1074-1123 | for every text, the in-place erasure leaves the first line and exactly those later logical lines that are not a complete property of that name, bytes and order unchanged; it ends because the pair of text length and distance to the end falls |
| PropertyRemover.EraseStep | bluetooth-pb-agent/bluetooth_pb_vcard.c:1107-1118 | erasing one complete matching property and going back does not change what is left in the end |
| PropertyRemover.PassedThrough | bluetooth-pb-agent/bluetooth_pb_vcard.c:1107-1122 | a matching property that reaches the end of the text without its CRLF stays |
| VcardFilter.LogicalOfKept | bluetooth-pb-agent/bluetooth_pb_vcard.c:1074-1123 | the logical lines of a text after a removal are the ones kept: no two lines run together |
| VcardFilter.RemovedTwice | bluetooth-pb-agent/bluetooth_pb_vcard.c:1125-1172 | two removals are one removal of both sets of names |
| VcardFilter.OrderDoesNotMatter | bluetooth-pb-agent/bluetooth_pb_vcard.c:1125-1172 | any list of single removals, in whatever order and however often repeated, is one removal of the set of its names |
| VcardFilter.OthersStay | bluetooth-pb-agent/bluetooth_pb_vcard.c:1074-1123 | the lines of every name that is not removed all stay, in order and byte for byte |
| VcardFilter.AllGoneIff | bluetooth-pb-agent/bluetooth_pb_vcard.c:1074-1123 | behind the first line nothing of the removed names is left, unless and only unless the text ends in such a line without its CRLF |
| VcardFilter.Filter | bluetooth-pb-agent/bluetooth_pb_vcard.c:1133-1169 | a property is removed exactly when its bit is clear, which `VcardFilter.ClearBitIff` says in numbers |
| VcardFilter.FilterV30 | bluetooth-pb-agent/bluetooth_pb_vcard.c:1125-1172 | the twelve removals one after the other equal one pass that drops the lines whose name is in the set of cleared bits; no vCard gives none |
| VcardFilter.ClearBitIff | bluetooth-pb-agent/bluetooth_pb_vcard.c:1133-1169 | for each of the twelve names and its bit given as a number: the name is removed if and only if that bit of the mask is 0, whatever the other bits |
| VcardFilter.FullMaskKeepsAll | bluetooth-pb-agent/bluetooth_pb_vcard.c:1133-1169 | the mask with all twelve bits, 0xB73138, leaves every text as it is |
| VcardFilter.EmptyMaskRemovesAll | bluetooth-pb-agent/bluetooth_pb_vcard.c:1133-1169 | mask 0 removes the twelve names, and leaves no line of them behind the first if the text ends with its CRLF |
| VcardFilter.FilterIsSetOperation | bluetooth-pb-agent/bluetooth_pb_vcard.c:1125-1172 | filters commute and come to one removal of the union, filtering twice is filtering once, and a mask that asks for less can be applied after one that asks for more |
| VcardFilter.MoreClearsLess | bluetooth-pb-agent/bluetooth_pb_vcard.c:1125-1172 | a mask that asks for more clears a subset of the names |
| VcardFilter.MandatoryStays | bluetooth-pb-agent/bluetooth_pb_vcard.c:1125-1172 | whatever the mask, the lines of VERSION, N, FN, TEL and END all stay as they are |
| StructuredValue.Escape | bluetooth-pb-agent/bluetooth_pb_vcard.c:237-267 | copying the runs between the ';' puts one '\' before each ';' and changes nothing else; no text gives none |
| StructuredValue.StrvConcat | bluetooth-pb-agent/bluetooth_pb_vcard.c:269-283 | the strings are joined by single ';' |
| StructuredValue.AddFieldStr | bluetooth-pb-agent/bluetooth_pb_vcard.c:1467-1503 | all fields escaped, an unset one empty, or nothing if none is set |
| StructuredValue.NameFromContact | bluetooth-pb-agent/bluetooth_pb_vcard.c:1769-1803 | the N value is the structured form of the five name fields |
| StructuredValue.NameInOrder | bluetooth-pb-agent/bluetooth_pb_vcard.c:1769-1803 | the reader of N finds family name, given name, additional names, prefix and suffix in that order, unless one before the last ends in '\' |
| StructuredValue.AddressValue | bluetooth-pb-agent/bluetooth_pb_vcard.c:1644-1660 | the ADR value is the structured form of the seven address fields, or none if none is set |
| StructuredValue.AddressInOrder | bluetooth-pb-agent/bluetooth_pb_vcard.c:1644-1660 | the reader of ADR finds box, extended address, street, locality, region, postal code and country in that order, unless one before the last ends in '\' |
| StructuredValue.FieldsOfStructured | bluetooth-pb-agent/bluetooth_pb_vcard.c:237-283 | a reader that splits at each ';' not behind a '\' finds one component less for each component but the last that ends in '\', and all of them unchanged if there is none |
| StructuredValue.StructuredReadsBackIff | bluetooth-pb-agent/bluetooth_pb_vcard.c:237-283 | the reader gets back exactly the components if and only if none but the last ends in '\' |
| StructuredValue.NameAndAddressCounts | bluetooth-pb-agent/bluetooth_pb_vcard.c:1769-1803 | N reads as five components and ADR as seven if and only if no component but the last ends in '\' |
| Base64Fold.AppendBase64 | bluetooth-pb-agent/bluetooth_pb_vcard.c:603-651 | one base64 property is appended, folded if asked |
| Base64Fold.Base64Written | bluetooth-pb-agent/bluetooth_pb_vcard.c:603-651 | name, parameter, ENCODING=BASE64 and ':' come first; behind them nothing without a value, the encoded text and one CRLF unfolded, the folded text and two CRLF folded |
| Base64Fold.AppendFolded | bluetooth-pb-agent/bluetooth_pb_vcard.c:628-647 | the fold loop appends the whole encoded text as lines behind "CRLF space" |
| Base64Fold.UnfoldsBack | bluetooth-pb-agent/bluetooth_pb_vcard.c:628-647 | removing each "CRLF space" gives back the whole encoded text, for every length |
| Base64Fold.ChunkShapes | bluetooth-pb-agent/bluetooth_pb_vcard.c:628-647 | there are ceil(n/74) pieces, none empty, all but the last of 74 octets |
| Base64Fold.FoldedLines | bluetooth-pb-agent/bluetooth_pb_vcard.c:628-647 | the folded text takes ceil(n/74) lines of at most 75 octets, the blank included, and only the last is shorter |
| PhonebookStore.BooksPartition | bluetooth-pb-agent/bluetooth_pb_agent.c:959-989 | every call of the combined book is in exactly one of the incoming, outgoing and missed books |
| PhonebookStore.BookHolds | bluetooth-pb-agent/bluetooth_pb_vcard.c:1866-1941 | each call book holds exactly the rows of its log types, spelled out type by type, in the order of the log |
| PhonebookPull.GetContactVcards | bluetooth-pb-agent/bluetooth_pb_agent.c:991-1048 | the counter loop collects the window of the list that has the owner at 0 and the contacts from 1 |
| PhonebookPull.GetCallVcards | bluetooth-pb-agent/bluetooth_pb_agent.c:1050-1227 | the three single-kind loops collect the window of the calls of that kind that have a vCard, numbered from 1 |
| PhonebookPull.GetCombinedCallVcards | bluetooth-pb-agent/bluetooth_pb_agent.c:1229-1293 | the combined loop collects the window of the calls of the three kinds |
| PhonebookPull.WindowIs | bluetooth-pb-agent/bluetooth_pb_agent.c:1000-1045 | a window is the entries from the offset on, as many as asked for and there are, and 65535 asks for all |
| PhonebookPull.PullsAreNumbered | bluetooth-pb-agent/bluetooth_pb_agent.c:991-1293 | from offset 0 the owner comes first whatever the count and the rest of the count goes to the contacts, which are numbered from 1; calls are numbered from 1 and offset 0 is offset 1 |
| PhonebookPull.PagingIsComplete | bluetooth-pb-agent/bluetooth_pb_agent.c:991-1293 | from any offset on, pages of any size at least 1 put together are the unrestricted pull; call books from offset 1 |
| PhonebookPull.OffsetZeroRepeats | bluetooth-pb-agent/bluetooth_pb_agent.c:1071-1072 | two consecutive call windows are one of twice the size, except that from offset 0 the second repeats the last entry of a full first |
| PhonebookPull.GetContactSize | bluetooth-pb-agent/bluetooth_pb_agent.c:868-879 | the size is the length of the unrestricted pull, the owner counted once, if and only if every contact has a vCard |
| PhonebookPull.GetIncomingCallSize | bluetooth-pb-agent/bluetooth_pb_agent.c:881-909 | the counting loop gives the length of the incoming book, which is that of its unrestricted pull if and only if each of its calls has a vCard |
| PhonebookPull.GetOutgoingCallSize | bluetooth-pb-agent/bluetooth_pb_agent.c:911-939 | the counting loop gives the length of the outgoing book, which is that of its unrestricted pull if and only if each of its calls has a vCard |
| PhonebookPull.GetMissedCallSize | bluetooth-pb-agent/bluetooth_pb_agent.c:941-957 | the count over the service's list is the length of the unrestricted pull if and only if each of its rows is a missed call with a vCard, and the number of missed calls in the log if the list is that of the log |
| PhonebookPull.GetCombinedCallSize | bluetooth-pb-agent/bluetooth_pb_agent.c:959-989 | the counting loop gives the length of the combined book, which is that of its unrestricted pull if and only if each of its calls has a vCard |
| PhonebookPull.SizeIsPullIff | bluetooth-pb-agent/bluetooth_pb_agent.c:868-989 | every reported size is at least the length of the unrestricted pull, and equals it if and only if everything counted is also pulled |
| PhonebookPull.SizesAreConserved | bluetooth-pb-agent/bluetooth_pb_agent.c:868-989 | when the missed-call list is the log's missed entries, the combined size is the sum of the other three, and with a vCard for each entry every size is the length of the unrestricted pull, the owner counted once |
| PhonebookPull.PulledAlone | bluetooth-pb-agent/bluetooth_pb_agent.c:1050-1293 | the entry pulled alone at offset h is the h-th row of the book |
| PhonebookIndex.PbAgent.Clear | bluetooth-pb-agent/bluetooth_pb_agent.c:296-306 | after a change no book is current and there is no table, whatever the database |
| PhonebookIndex.PbAgent.CreateContactIndex | bluetooth-pb-agent/bluetooth_pb_agent.c:1295-1324 | afterwards the table is exactly handle i to the i-th contact id; a current table is left alone |
| PhonebookIndex.PbAgent.CreateCallIndex | bluetooth-pb-agent/bluetooth_pb_agent.c:1326-1387 | afterwards the table is exactly handle i to the i-th id of that call book |
| PhonebookIndex.PbAgent.GetContactList | bluetooth-pb-agent/bluetooth_pb_agent.c:1390-1451 | the listing through the table is the one made straight from the database; what its lines hold is `PhonebookIndex.ListingIs` |
| PhonebookIndex.PbAgent.GetCallList | bluetooth-pb-agent/bluetooth_pb_agent.c:1453-1499 | the same for a call book |
| PhonebookIndex.PbAgent.GetContactListByName | bluetooth-pb-agent/bluetooth_pb_agent.c:1501-1563 | the entries whose name begins with the text, the owner too if asked, straight from the database; what they hold is `PhonebookIndex.FoundAreLines` |
| PhonebookIndex.PbAgent.GetCallListByName | bluetooth-pb-agent/bluetooth_pb_agent.c:1565-1603 | the same for a call book |
| PhonebookIndex.ListingIs | bluetooth-pb-agent/bluetooth_pb_agent.c:1390-1499 | a listing is the owner's line, for contacts from a start of at most 0, and then one line for each handle of the window in turn; the line of handle h holds h and the number and the asked name of the contact or call with the h-th id of the book |
| PhonebookIndex.FoundAreLines | bluetooth-pb-agent/bluetooth_pb_agent.c:1501-1603 | every line a search finds is the line of its handle in that sense, begins with the text, and the handles rise |
| PhonebookIndex.NoneIsMissed | bluetooth-pb-agent/bluetooth_pb_agent.c:1501-1603 | every line of a handle whose name begins with the text is found |
| PhonebookIndex.SearchIs | bluetooth-pb-agent/bluetooth_pb_agent.c:1501-1603 | a search gives the owner's line first, if it is asked for and begins with the text, and then what it finds |
| PhonebookIndex.PbAgent.GetEntryId | bluetooth-pb-agent/bluetooth_pb_agent.c:456-531 | the id is that of the handle in the book that was current before the call |
| PhonebookIndex.PbAgent.ListHashInsert | bluetooth-pb-agent/bluetooth_pb_agent.c:1667-1677 | the id is stored under its handle, if there is a table |
| PhonebookIndex.PbAgent.ListHashLookupId | bluetooth-pb-agent/bluetooth_pb_agent.c:1679-1689 | an unknown handle, or no table, gives 0 |
| PhonebookIndex.Serve | bluetooth-pb-agent/bluetooth_pb_agent.c:419-531 | one request or change gives what it gives without the cache and leaves the table agreeing with the database |
| PhonebookIndex.Run | bluetooth-pb-agent/bluetooth_pb_agent.c:1295-1603 | over every run of listings, searches, fetches and changes the outputs are those of an agent without a cache |
| PhonebookIndex.ListedHandleResolves | bluetooth-pb-agent/bluetooth_pb_agent.c:456-531 | a handle that was listed, fetched at any later time while its book is current and the database unchanged, whatever was asked in between, resolves to an id, and the listed line holds the number and the asked name that the database has for that very id |
| PhonebookIndex.FetchAfterRun | bluetooth-pb-agent/bluetooth_pb_agent.c:456-531 | at the end of any run, changes included, a fetch resolves its handle in the book of the last request, and in none right after a change |
| PhonebookIndex.FetchBeforeListing | bluetooth-pb-agent/bluetooth_pb_agent.c:481-488 | right after a change a fetch gives id 0 whatever the handle |
| PhonebookIndex.ListedWindow | bluetooth-pb-agent/bluetooth_pb_agent.c:1404-1431 | from a start of at least 0 a handle is listed if and only if it is between start and end, or is the start; below that a negative end lists everything |
| PhonebookIndex.PulledCallIsIndexed | bluetooth-pb-agent/bluetooth_pb_agent.c:1326-1387 | the call pulled alone at offset h is that of one row of the book, and it is the row whose id the table has under handle h if and only if each of the first h rows has a vCard |
| PhonebookIndex.PulledContactIsIndexed | bluetooth-pb-agent/bluetooth_pb_agent.c:1295-1324 | the same for the contacts behind the owner |
| PairingAgent.CoreAgent.Admit | bluetooth-frwk-agent/sc_core_agent.c:187-246 | a request of another sender, or without callbacks, changes nothing; without an adapter it is refused without being stored; otherwise it is stored with the address of its path |
| PairingAgent.CoreAgent.OnPinCode | bluetooth-frwk-agent/bluetooth-agent-cb.c:188-261 | a PIN request is answered with the fixed PIN, a generated one or a refusal, or left to the user, and the one-shot flag is used up if the address is known |
| PairingAgent.CoreAgent.OnConfirmation | bluetooth-frwk-agent/bluetooth-agent-cb.c:263-399 | a passkey or confirmation request is refused if nothing is known of the device, and left to the user otherwise |
| PairingAgent.CoreAgent.OnAuthorize | bluetooth-frwk-agent/bluetooth-agent-cb.c:455-558 | audio services are granted, unpaired devices refused, delegated services left open, trusted devices granted, the rest left to the user |
| PairingAgent.CoreAgent.OnConfirmMode | bluetooth-frwk-agent/sc_core_agent.c:476-548 | the mode request is stored, answered at once, and stays stored |
| PairingAgent.CoreAgent.OnCancel | bluetooth-frwk-agent/sc_core_agent.c:550-588 | whatever waits is answered once and forgotten, although both the callback and the code after it would answer |
| PairingAgent.CoreAgent.OnRelease | bluetooth-frwk-agent/sc_core_agent.c:590-615 | the release itself is answered, what waited is dropped unanswered |
| PairingAgent.CoreAgent.ReplyToPairing | bluetooth-frwk-agent/sc_core_agent.c:722-835 | the waiting invocation is answered, if there is one, and the agent is idle afterwards |
| PairingAgent.CoreAgent.ReplyToAuthorization | bluetooth-frwk-agent/sc_core_agent.c:837-888 | the same, and the reply's own invocation is answered too: with an error exactly if nothing waited |
| PairingAgent.CoreAgent.ReplyToMode | bluetooth-frwk-agent/sc_core_agent.c:890-928 | the invocation it is given is answered and nothing is cleared |
| PairingAgent.CoreAgent.IsAutoResponse | bluetooth-frwk-agent/bluetooth-agent-cb.c:655-698 | true exactly for a headset the flag does not stand for; the flag is clear afterwards if an address was given |
| PairingAgent.CoreAgent.OnIgnoreAutoPairing | bluetooth-frwk-agent/bluetooth-agent-cb.c:594-611 | a non-empty address sets the flag for its first 18 octets, an empty one is refused |
| PairingAgent.CoreAgent.RegisterOnAdapter | bluetooth-frwk-agent/sc_core_agent.c:979-1022 | registering makes the agent idle and forgets both addresses |
| PairingAgent.CoreAgent.Handle | bluetooth-frwk-agent/sc_core_agent.c:187-1022 | one D-Bus call is one step of the state machine the runs are made of |
| PairingAnswers.StepKeeps | bluetooth-frwk-agent/sc_core_agent.c:187-888 | every step that does not hit an answered mode request keeps: idle exactly if nothing is stored, what is stored is unanswered unless it is a mode request, nobody is answered twice |
| PairingAnswers.AtMostOneAnswer | bluetooth-frwk-agent/sc_core_agent.c:187-888 | over every run of requests, replies, remote cancels, releases and registrations of a new agent no invocation is answered twice, and the agent is idle exactly when nothing is stored |
| PairingAnswers.AtMostOneAnswerIff | bluetooth-frwk-agent/sc_core_agent.c:187-928 | over every run, mode requests included, no invocation is answered twice if and only if no reply comes while an answered mode request is still stored; in either case the agent is idle exactly when nothing is stored |
| PairingAnswers.IdleIffNothingStoredAlways | bluetooth-frwk-agent/sc_core_agent.c:187-1022 | in every run whatsoever the agent is idle exactly when nothing is stored |
| PairingAnswers.ModeAnsweredTwice | bluetooth-frwk-agent/sc_core_agent.c:890-928 | a granted mode request followed by a reply is answered twice |
| PairingAnswers.OnlyTheseAreAnswered | bluetooth-frwk-agent/sc_core_agent.c:187-928 | a step answers nobody but the stored invocation and the one it was handed |
| PairingAnswers.LostForGood | bluetooth-frwk-agent/sc_core_agent.c:187-928 | an invocation that is no longer stored, overwritten or settled, is not answered in any continuation |
| PairingAnswers.RequestIsAnsweredOrStored | bluetooth-frwk-agent/sc_core_agent.c:187-474 | a request of BlueZ comes out of its step either answered once or stored, and stored if and only if there is an adapter and the callback does not decide it |
| PairingAnswers.GrantedIff | bluetooth-frwk-agent/bluetooth-agent-cb.c:455-558 | supporting: a service is granted on the spot if and only if it is an audio service, or the device is paired and trusted and no other process is to be asked |
| PairingAnswers.StoredDeviceIsKnown | bluetooth-frwk-agent/sc_core_agent.c:224-236 | a request left to the user remembers the address of the device it came from |
| PairingAnswers.CancelAnswersOnce | bluetooth-frwk-agent/sc_core_agent.c:550-588 | supporting: a remote cancel gives the waiting request its only answer, "cancelled" with the callbacks installed |
| PairingOutcomes.StrangersChangeNothing | bluetooth-frwk-agent/sc_core_agent.c:187-222 | a request, a cancel or a release from anyone but the owner of BlueZ's bus name changes nothing |
| PairingOutcomes.WithoutCallbacksOrAdapter | bluetooth-frwk-agent/sc_core_agent.c:187-246 | without callbacks a request changes nothing; without an adapter it is refused and nothing else changes |
| PairingOutcomes.ConfirmationIsLeftToUser | bluetooth-frwk-agent/bluetooth-agent-cb.c:263-399 | a passkey or confirmation request that gets that far is stored and nobody is answered if and only if the device has a name or an address; otherwise it is refused, once |
| PairingOutcomes.PinRequestIs | bluetooth-frwk-agent/bluetooth-agent-cb.c:188-261 | a PIN request is answered "0000" for an audio device the flag does not stand for, with the generated PIN for a keyboard, refused if the device cannot be named and left to the user otherwise; the flag is used up exactly if the address is known |
| PairingOutcomes.AudioServiceIff | bluetooth-frwk-agent/bluetooth-agent-cb.c:470-477 | the services granted outright are the three audio UUIDs, in either case of letters |
| PairingOutcomes.DelegatedIff | bluetooth-frwk-agent/bluetooth-agent-cb.c:508-526 | asked elsewhere are the object push UUID without an OBEX agent and the set RFCOMM UUID, in either case of letters |
| PairingOutcomes.AuthorizationIs | bluetooth-frwk-agent/bluetooth-agent-cb.c:455-558 | an audio service is granted; otherwise an unpaired device is refused, a service asked elsewhere left open, a trusted device granted, and the rest left to the user if the device can be named |
| PairingOutcomes.PairingReplyIs | bluetooth-frwk-agent/sc_core_agent.c:722-835 | a reply of 0 returns the value to who waits, 2 cancels, anything else refuses; nobody else is answered and the agent is idle |
| PairingOutcomes.AuthorizationReplyIs | bluetooth-frwk-agent/sc_core_agent.c:837-888 | a reply is told in the same way to who waits, and its own invocation is answered after that, with an error exactly if nobody waited |
| PairingOutcomes.ModeReplyIs | bluetooth-frwk-agent/sc_core_agent.c:890-928 | a reply about the mode answers the invocation it is given, refusing if the change fails, and changes nothing else |
| PairingOutcomes.ModeRequestIs | bluetooth-frwk-agent/bluetooth-agent-cb.c:73-90 | a mode request is granted if and only if it says "enable" or "disable", in either case of letters, and the change works |
| PairingOutcomes.ReleaseIs | bluetooth-frwk-agent/sc_core_agent.c:590-615 | a release is answered, and what was stored is dropped without an answer |
| PairingOutcomes.IgnoreIs | bluetooth-frwk-agent/bluetooth-agent-cb.c:594-611 | the flag stands for the first 18 octets of the address, or for as many as there are |
| PairingOutcomes.CancelIs | bluetooth-frwk-agent/sc_core_agent.c:550-588 | a remote cancel tells who waits for the user "cancelled", or "rejected" without callbacks, and nobody else |
| PairingOutcomes.RegisterIs | bluetooth-frwk-agent/sc_core_agent.c:979-1022 | registering answers nobody and leaves nothing stored |
| DiscoverableTimer.Timer.Set | bluetooth-frwk-agent/sc_core_agent.c:673-703 | a running timer is stopped, the setting written, and a new one started only for a positive time |
| DiscoverableTimer.Timer.Tick | bluetooth-frwk-agent/sc_core_agent.c:648-671 | one second less, and at zero the timer is gone and the setting 0 |
| DiscoverableTimer.TicksExactly | bluetooth-frwk-agent/sc_core_agent.c:648-720 | set to n seconds the timer ticks exactly n times; until then the setting holds n and n minus the ticks remain, then both are zero |
| Bonding.BtInfo.Bond | lib/bluetooth-gap-api.c:1571-1614 | an adapter that is off or busy refuses without a change; otherwise the address is printed, the request sent and the timer started, or the address alone is kept if the call fails |
| Bonding.BtInfo.ReplyCb | lib/bluetooth-gap-api.c:1047-1103 | a request ends with one final result, or, for a headset's first authentication failure, with the message to the agent and a second request for the same address |
| Bonding.BtInfo.FinishCb | lib/bluetooth-gap-api.c:1177-1322 | each way BlueZ can end a request leads to its error, and to the retry or a renewed request where the code makes one |
| Bonding.BtInfo.CreatedCb | lib/bluetooth-gap-api.c:1105-1175 | success clears the retry mark and is reported |
| Bonding.BtInfo.TimeoutCb | lib/bluetooth-gap-api.c:1324-1341 | the timeout is reported and never retried |
| Bonding.BtInfo.Cancel | lib/bluetooth-gap-api.c:1616-1649 | cancelling stops the timer and calls the request off but leaves the marks |
| Bonding.BtInfo.PairedProperty | lib/bluetooth-api-common.c:388-406 | a device that becomes paired is reported only when no request of ours is running |
| Bonding.BtInfo.DeviceAdded | lib/bluetooth-api-common.c:530-550 | a device seen for the first time decides whether the bonding is a headset's |
| Bonding.OneAutomaticRetry | lib/bluetooth-gap-api.c:1047-1103 | in every run there is a final result between any two automatic bondings, and each of them is for the device the agent was told to leave alone, which is one the run has asked for |
| Bonding.RetryHasAddress | lib/bluetooth-gap-api.c:1242-1293 | an automatic bonding always has an address: a refused headset is looked up under it, and a page timeout counts as a headset's only while a request is running |
| Bonding.StepKeeps | lib/bluetooth-gap-api.c:1047-1341 | the retry mark is set exactly when one automatic bonding was made since the last final result, and the stored address is empty or a printed one |
| Bonding.AnswerFinishesIff | lib/bluetooth-gap-api.c:1177-1322 | an answer of BlueZ is reported once, or the request goes out again once, or, exactly when it was to be made again and cannot be sent, neither; then a removed bond leaves everything as it was and a retry neither timer nor request |
| Bonding.RetryGoesOutIff | lib/bluetooth-gap-api.c:1079-1091 | supporting: the retry asks for the same address with the timer running if and only if the adapter is on, not discovering and the call can be sent; otherwise neither timer nor running request is left |
| Bonding.PageTimeoutRetriesSomething | lib/bluetooth-gap-api.c:1275-1293 | in every run, a page timeout is retried only for an address that run has asked to be bonded |
| Bonding.RetriedHeadsetIsAsked | lib/bluetooth-gap-api.c:1070-1092 | after a retry, whatever else happens, the next PIN request the agent handles, if it is for that headset, is not answered with the fixed PIN but left to the user, and the flag is clear again |
| Bonding.RetriedHeadsetIsAskedInEveryRun | lib/bluetooth-gap-api.c:1070-1092 | the same for a retry at any point of any joint run of library, agent and message delivery from the start |
| Bonding.FixedPinIff | bluetooth-frwk-agent/bluetooth-agent-cb.c:689-698 | supporting: a headset's PIN request is answered with the fixed PIN if and only if the flag does not stand for its address |
| Bonding.JointKeeps | lib/bluetooth-gap-api.c:1047-1103 | supporting: the library's invariant holds at every point of every interleaving with the agent and the delivery of messages |
| BondingOutcomes.AnswerIsReported | lib/bluetooth-gap-api.c:1177-1322 | which result each answer of BlueZ is reported as, answer by answer, when the request is not made again; every error comes behind the calling off of the request, and all marks, the address and the timer are cleared |
| BondingOutcomes.TimerAndPairing | lib/bluetooth-gap-api.c:1324-1341 | the timer is reported as a timeout, and a device that becomes paired as bonded, with the same clearing, unless a request is running |
| BondingOutcomes.SuccessIff | lib/bluetooth-gap-api.c:1047-1341 | a step reports success if and only if BlueZ has created the device, or it became paired with no request running |
| BondingOutcomes.RetryIff | lib/bluetooth-gap-api.c:1242-1293 | the automatic retry is made exactly for an authentication failure of a known audio device or a page timeout while a headset is bonded, and not if the mark says it was made |
| BondingOutcomes.RefusalIff | lib/bluetooth-gap-api.c:1242-1293 | supporting: which answers count as a headset's refusal, said of the devices and marks alone |
| BondingOutcomes.AudioDeviceIff | lib/bluetooth-gap-api.c:984-1015 | supporting: a text is taken for a headset's exactly if a known device prints as it and its class is audio but no video device |
| BondingOutcomes.RetryIs | lib/bluetooth-gap-api.c:1070-1092 | the retry calls the request off, asks for the bytes of the same address, tells the agent of it, and sets the mark |
| BondingOutcomes.ReplacedIs | lib/bluetooth-gap-api.c:1203-1225 | a bond that could be removed is asked for again, and nothing else changes |
| BondingOutcomes.BondIs | lib/bluetooth-gap-api.c:1571-1614 | the refusals of a bonding call in their order, and what is left of it when the call cannot be sent |
| BondingOutcomes.CancelAndDevice | lib/bluetooth-gap-api.c:1616-1649 | cancelling stops the timer and calls the request off; a new device sets the headset mark by its class, with the bits written out |
| Address.ParsePrinted | lib/bluetooth-api-common.c:209-240 | printing six bytes and parsing the text gives the bytes back |
| Address.ReplaceAll | lib/bluetooth-api-common.c:567-569 | the in-place loop rewrites every '_' and nothing else; it ends because there is one less each time |
| Address.DevicePathToAddress | lib/bluetooth-api-common.c:552-573 | the address is the at most 17 octets behind the first "dev_", '_' read as ':'; without one there is none |
| Address.PathReads | lib/bluetooth-network-api.c:291-302 | the path built for an address gives back its text and its bytes |
| Address.PathRoundTripIff | lib/bluetooth-network-api.c:291-302 | every address survives the round trip under an adapter path if and only if that path, its ':' turned into '_', holds no "dev_" |
| Address.SomePathFails | lib/bluetooth-api-common.c:561-571 | under an adapter path that holds "dev_" some address is lost |
| Text.LinesOfConcat | bluetooth-pb-agent/bluetooth_pb_vcard.c:353-387 | unless the seam makes a CRLF of its own, what is appended continues the last line of the buffer |
| Utf8.WellFormedSplit | bluetooth-pb-agent/bluetooth_pb_vcard.c:430-442 | cutting a UTF-8 text before an ASCII octet cuts between characters |
| Utf8.TextIsWellFormed | bluetooth-pb-agent/bluetooth_pb_vcard.c:430-442 | the UTF-8 form (section 3 of RFC 3629) of every sequence of code points is a text the round trip is proved for |
| Utf8.OneCharacter | bluetooth-pb-agent/bluetooth_pb_vcard.c:430-442 | a step over a character passes the octets of one code point, neither less nor more |

## Left out

- QuotedPrintable.DecodeOfEncoded: well-formed UTF-8 is required; on other text `g_utf8_next_char` can step past a segment.
- QuotedPrintable.DecodeOfEncoded: the decoder has no rule 3 of section 6.7; with it `QpTrailing.TrimmingDecodeIff` says when the text survives.
- QpLayout.EncodedLinesFit: speaks of the encoder's own output; the property name and parameters in front of the first line are not counted by the code either.
- PropertyStream.StreamReads: names without ':' or ';' and parameters without ':' are assumed, as the callers pass them; the reader is the model's own and the writer's parameters are arbitrary otherwise.
- PropertyStream.StreamReadsIff: names and parameters hold no CR either; the half that reads back, `PropertyStream.StreamReads`, does without.
- PhonebookPull.PagingIsComplete: the offsets of the pages are not bounded; none is past the last number of the book, so they fit the 16-bit offset of the profile when that is at most 65535, and need not in a longer book.
- PropertyRemover.RemoveProperty: the property name is not empty, starts with no blank and holds no separator, CR or LF, as the twelve names of the filter do.
- Base64Fold.UnfoldsBack: the result of `g_base64_encode` is any text without a CR.
- PhonebookIndex.ListedHandleResolves: only while the book of the listing is still the current one, which a request for another book or a change ends; `PhonebookIndex.FetchAfterRun` says what a fetch gives in every other run.
- PhonebookIndex.Run: a change of the database and the clearing of the table that follows it are one step.
- PairingAnswers.AtMostOneAnswer: leaves mode requests out; with them the exact condition is `PairingAnswers.AtMostOneAnswerIff`.
- PairingAnswers.RequestIsAnsweredOrStored: not "answered in the end", since a later request overwrites a stored one and a release drops it.
- PairingAgent.CoreAgent.OnPinCode: the generated keyboard passkey is a parameter, and popups are not modelled.
- PairingAgent.CoreAgent.ReplyToPairing: the three replies differ in the type of what they return; the text is kept and its conversion to a number by `atoi` is not modelled.
- PairingAgent.CoreAgent.OnConfirmMode: who has to be asked is computed by the code but not used by the callback; only whether the mode change works is a parameter.
- Bonding.OneAutomaticRetry: a refused device is looked up among devices that have addresses, so nothing is found under the empty text; an environment that reported a headset for it would be retried at whatever address the empty text parses to.
- Bonding.RetriedHeadsetIsAsked: that the message has arrived before the PIN request is a premise; D-Bus keeps the order.
- Bonding.BtInfo.Bond: a second bonding started while one is running overwrites the address and leaves the first timer to fire; the timer is one mark here, and firing is possible at any time.
- Address.DevicePathToAddress: a missing buffer is not modelled; paths hold no NUL.
- Address.ParsePrinted: parsing of other texts follows `strtol` but stops at the end of the text, where the code reads on behind it.
- C integers: lengths and handles are unbounded, except the 16-bit counts and offsets of the pulls and the unsigned comparison of the list end.
- D-Bus, GLib objects, main loops, settings storage, popups and scripts: the environment's part is a parameter of each step.
- The contact and call-log services: sequences of rows with an id, a type and perhaps a vCard; rows that cannot be read and the vCard contents are not modelled.
- `DisplayPasskey`: answered at once and without effect on the stored request.
- Reading the remaining discoverable time and the timeout verdict of a reply: the first returns the field, the second is answered like a refusal.
- Date formatting, telephone and photo tables, folder-name matching: single-branch facts.
- RFCOMM, HDP, OPP, OBEX server, audio, telephony and media control: not part of this model.
