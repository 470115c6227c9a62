# sharebook, modelled in Dafny

sharebook is a Hyperledger Fabric chaincode for lending books between organisations.

- **Books** live in the channel's public world state under keys `book_<n>`. A counter record lives under `BookConfig`.
- **Students** live in each organisation's implicit private collection `_implicit_org_Org<d>MSP`, under keys `student_<n>@<domain>`. A counter record lives under `StudentConfig`.
- The owner of a book **grants** it to an organisation, together with the content hash of one of that organisation's students. The owner takes the hash from the grantee's private collection.
- Every entitled organisation may **read** the book.
- A vetted student of an entitled organisation may **borrow** the book while it is free, or **queue a request** while it is out.
- **Returning** the book hands it to the first request in the queue.

The model is split into six modules:

- `BookTypes` (types.dfy): the records and the two counters. It also fixes what decoding gives when a key holds a record of the other kind.
- `Text` (text.dfy):
  - `strconv.Itoa`, `strings.Split`/`Join` and `strings.Contains`.
  - The key order of a range scan, and a method that lists a key set in that order.
- `Identity` (identity.dfy):
  - `GetPrivateCollection`, with the unanchored pattern `Admin@org([0-9]).example.com` exactly as the regexp package reads it. Its dots are wildcards, and the reported match is the leftmost one.
  - The domain token RegStudent takes from the caller.
- `Contract` (contract.dfy): the reference semantics of every transaction. Each one is a function from the world state before it to its outcome and the world state after it. It checks the guards in the order the chaincode does.
- `Properties` (properties.dfy): what the transactions guarantee, including the two ReturnBook defects below.
- `Chaincode` (ledger.dfy): class `Ledger`, which holds the public namespace and the private collections as mutable maps.
  - It has one method per transaction, with the chaincode's loops.
  - Each method is proved equal to its `Contract` function: `Step(outcome, State()) == Contract.X(old(State()), ...)`.

Things outside the chaincode's control are parameters:

- The caller identity is a `caller` argument.
- The collection hash is an arbitrary function `Digest` from a stored private value to a string. In the class it is the `digest` field.
- A transaction that returns an error changes nothing, because the ledger discards its write set.

## Model

| member | source | states |
|---|---|---|
| Text.NatToString | sharebook/sharebook.go:160 | strconv.Itoa of a count: at least one character, all of them decimal digits |
| Text.NatToStringInjective | sharebook/sharebook.go:160 | Different counts print differently |
| Text.NumberedInjective | sharebook/sharebook.go:126 | A fixed prefix followed by a printed count determines the count |
| Text.Split | sharebook/sharebook.go:101 | strings.Split on one character: at least one part, and no part holds the separator |
| Text.JoinSplit | sharebook/sharebook.go:101 | Joining the parts of a split gives back the input |
| Text.SplitJoin | sharebook/sharebook.go:101 | Splitting a join of separator-free parts gives back the parts |
| Text.SplitAfterPiece | sharebook/sharebook.go:101-105 | A separator-free first piece is split off as the first token |
| Text.ContainsPrefix | sharebook/sharebook.go:484 | A key that starts with `book_` passes the strings.Contains filter |
| Text.LexIrreflexive | sharebook/sharebook.go:472 | Scan order is irreflexive |
| Text.LexTransitive | sharebook/sharebook.go:472 | Scan order is transitive |
| Text.LexTotal | sharebook/sharebook.go:472 | Any two different keys are ordered one way or the other |
| Text.Least | sharebook/sharebook.go:472 | The least key of a non-empty key set in scan order |
| Text.LeastExists | sharebook/sharebook.go:472 | Every non-empty key set has a least key in scan order |
| Text.ScanOrder | sharebook/sharebook.go:472 | The scan order of a key set: every key exactly once, strictly ascending |
| Text.AscendingUnique | sharebook/sharebook.go:472 | Two ascending sequences with the same keys are equal, so the scan order is unique |
| Text.SortedKeys | sharebook/sharebook.go:472-482 | The keys of an open range scan: every key exactly once, strictly ascending, and equal to ScanOrder |
| Text.Keep | sharebook/sharebook.go:484 | A filtering scan keeps exactly the keys that pass the filter |
| Text.KeepAscending | sharebook/sharebook.go:479-497 | Filtering keys that are in ascending order keeps them in ascending order |
| Text.Join | sharebook/sharebook.go:101 | strings.Join with one character, the inverse of Split (see Text.JoinSplit and Text.SplitJoin) |
| Text.Contains | sharebook/sharebook.go:484 | strings.Contains: the pattern occurs at some position of the key |
| Text.FirstSepAt | sharebook/sharebook.go:101 | After a separator-free piece, the first separator is the one that follows it |
| Text.NumberedHasNo | sharebook/sharebook.go:126 | A prefix followed by a printed count holds no non-digit character the prefix lacks |
| Identity.MatchesAt | sharebook/sharebook.go:504 | The 22-character pattern Admin@org([0-9]).example.com at one position, each unescaped dot any character but a newline |
| Identity.CollectionName | sharebook/sharebook.go:508 | _implicit_org_Org<d>MSP for the captured digit |
| Identity.Domain | sharebook/sharebook.go:101-105 | The second "@" token of the caller, or "" when there is none; it holds no "@" |
| Identity.FirstMatchFrom | sharebook/sharebook.go:504-505 | The leftmost position at or after `from` where the pattern matches, or none when it matches nowhere after `from` |
| Identity.GetPrivateCollection | sharebook/sharebook.go:503-514 | Ok exactly when the pattern occurs somewhere in the caller; the collection is named after the digit of the leftmost occurrence; otherwise the parse error |
| Identity.DomainAfterFirstAt | sharebook/sharebook.go:101-105 | The domain is the text between the first `@` and the next `@` or the end |
| Identity.NoAtNoDomain | sharebook/sharebook.go:101-105 | A caller without `@` has the empty domain |
| Identity.AdminCollection | sharebook/sharebook.go:503-514 | Admin@org<d>.example.com owns _implicit_org_Org<d>MSP |
| Identity.AdminDomain | sharebook/sharebook.go:101-105 | Student ids minted by Admin@org<d>.example.com end in org<d>.example.com |
| Identity.LookAlikeIdentity | sharebook/sharebook.go:504-505 | An identity whose leftmost look-alike of an administrator name (wildcard dots, unanchored) names digit d is mapped to the collection of d |
| Identity.CollectionNameInjective | sharebook/sharebook.go:508 | Different digits name different collections |
| Identity.UserIdentityRejected | sharebook/sharebook.go:504-511 | A user identity User1@org<d>.example.com has no collection |
| BookTypes.BookOf | sharebook/sharebook.go:193-197 | A public record decoded as a Book; the counter record reads as the zero Book |
| BookTypes.StudentOf | sharebook/sharebook.go:541-545 | A private record decoded as a Student; the counter record reads as the zero Student |
| BookTypes.BookCount | sharebook/sharebook.go:152-156 | The book counter; an absent key, or a record without a Count, reads as 0 |
| BookTypes.StudentCount | sharebook/sharebook.go:115-119 | The student counter of one collection, defaulting to 0 likewise |
| Contract.BookKey | sharebook/sharebook.go:160 | book_<count> |
| Contract.StudentKey | sharebook/sharebook.go:126 | student_<count>@<domain> |
| Contract.StudentKeyInjective | sharebook/sharebook.go:126 | A student key determines its count and its "@"-free domain |
| Contract.Collection | sharebook/sharebook.go:116 | A private collection; one never written reads as empty |
| Contract.BookExists | sharebook/sharebook.go:439-446 | Reference semantics of BookExists: the key is present |
| Contract.GetBook | sharebook/sharebook.go:184-209 | Reference semantics of GetBook, characterised by Properties.GetBookSpec |
| Contract.StudentHash | sharebook/sharebook.go:211-224 | Reference semantics of GetStudentHash: parse error, not-found, or the digest of the record |
| Contract.CreateBook | sharebook/sharebook.go:144-180 | Reference semantics of CreateBook, characterised by Properties.CreateBookSpec |
| Contract.RegStudent | sharebook/sharebook.go:70-141 | Reference semantics of RegStudent, characterised by Properties.RegStudentOutcome and Properties.RegStudentSpec |
| Contract.AddRequest | sharebook/sharebook.go:226-267 | Reference semantics of AddRequest, characterised by Properties.AddRequestSpec |
| Contract.ReturnWith | sharebook/sharebook.go:269-298 | The guards of ReturnBook in the source's order, before the queue is handled |
| Contract.PaddedQueue | sharebook/sharebook.go:301-309 | The queue the loop builds: n-1 zero requesters, then every request but the first |
| Contract.ReturnedAsWritten | sharebook/sharebook.go:299-312 | The returned book as written, characterised by Properties.ReturnBookSpec and Properties.ReturnAgreesWithIntended |
| Contract.ReturnBook | sharebook/sharebook.go:269-318 | Reference semantics of ReturnBook as written, characterised by Properties.ReturnBookSpec |
| Contract.ReturnedIntended | sharebook/sharebook.go:299-312 | The corrected return: the head becomes the holder and leaves the queue, or the book is freed with no holder (Properties.IntendedReturnPopsHead) |
| Contract.ReturnBookIntended | sharebook/sharebook.go:269-318 | ReturnBook with the corrected queue handling (Properties.IntendedReturnKeepsReleased) |
| Contract.BorrowBook | sharebook/sharebook.go:320-361 | Reference semantics of BorrowBook, characterised by Properties.BorrowBookSpec |
| Contract.GrantBook | sharebook/sharebook.go:363-398 | Reference semantics of GrantBook, characterised by Properties.GrantBookSpec |
| Contract.UpdateBook | sharebook/sharebook.go:400-423 | Reference semantics of UpdateBook, characterised by Properties.UpdateBookSpec |
| Contract.UpdateBookIntended | sharebook/sharebook.go:400-423 | UpdateBook refusing the counter record (Properties.CountCoversKept) |
| Contract.DeleteBook | sharebook/sharebook.go:426-436 | Reference semantics of DeleteBook, characterised by Properties.DeleteBookSpec |
| Contract.DeleteBookIntended | sharebook/sharebook.go:426-436 | DeleteBook refusing the counter record (Properties.CountCoversKept) |
| Contract.TransferBook | sharebook/sharebook.go:449-462 | Reference semantics of TransferBook, characterised by Properties.TransferBookSpec |
| Contract.BookKeysIn | sharebook/sharebook.go:479-497 | The scanned keys GetAllBooks keeps, in scan order |
| Contract.GetAllBooks | sharebook/sharebook.go:465-501 | Reference semantics of GetAllBooks, characterised by Properties.GetAllBooksSpec |
| Contract.StudentKeysIn | sharebook/sharebook.go:535-550 | The scanned keys GetAllStudents keeps, in scan order |
| Contract.StudentListing | sharebook/sharebook.go:528-550 | The students a scan of one collection returns |
| Contract.GetAllStudents | sharebook/sharebook.go:516-553 | Reference semantics of GetAllStudents, characterised by Properties.GetAllStudentsSpec |
| Properties.CreateBookSpec | sharebook/sharebook.go:144-180 | CreateBook raises the counter by one, stores book_<count> (free, no holder, empty queue and reader list, entitle list [creator]) and touches no other key |
| Properties.CreateThenGet | sharebook/sharebook.go:144-209 | The creator reads back exactly the book it created |
| Properties.CreateMintsDistinctIds | sharebook/sharebook.go:152-160 | Two successive creations mint different ids, and the second keeps the first book |
| Properties.CreatedBookListed | sharebook/sharebook.go:144-180 | A new book is in its creator's GetAllBooks listing |
| Properties.GetAllBooksSpec | sharebook/sharebook.go:465-501 | GetAllBooks returns exactly the books whose key contains `book_` and whose entitle list holds the caller, each once, in ascending key order |
| Properties.ListedBookReturned | sharebook/sharebook.go:479-497 | Every book the filter accepts is in the GetAllBooks result |
| Properties.CreatedBookInListing | sharebook/sharebook.go:144-180 | A new book is among its creator's GetAllBooks result |
| Properties.GetAllStudentsSpec | sharebook/sharebook.go:516-553 | GetAllStudents fails exactly for a caller without a collection. Otherwise it returns exactly the students of that collection whose key contains `student_` and whose org is the caller, each once, in ascending key order |
| Properties.ListedStudentReturned | sharebook/sharebook.go:534-550 | Every student the filter accepts is in the GetAllStudents result |
| Properties.RegStudentStores | sharebook/sharebook.go:126-140 | RegStudent stores the new student, with the caller as org, under the minted key of the caller's collection |
| Properties.RegisteredStudentListed | sharebook/sharebook.go:70-141 | A registered student is among its organisation's GetAllStudents result |
| Properties.GetBookSpec | sharebook/sharebook.go:184-209 | GetBook is Ok exactly for a caller on the entitle list, then with the stored book; otherwise not-found or not-entitled |
| Properties.BorrowBookSpec | sharebook/sharebook.go:320-361 | Succeeds exactly for an entitled caller, a free book and a student whose hash is on the reader list; it then sets the holder and the flag; a borrowed book is refused |
| Properties.AddRequestSpec | sharebook/sharebook.go:226-267 | Succeeds exactly for an entitled caller, a borrowed book and a vetted student; it then appends (caller, student) to the queue; a free book is refused |
| Properties.ReturnBookSpec | sharebook/sharebook.go:269-318 | Succeeds exactly for the holder of a borrowed book whose student resolves. With n>0 requests, the first becomes the holder and the queue is 2(n-1) long: n-1 zero requesters, then the rest. With none, only the flag is cleared |
| Properties.GrantBookSpec | sharebook/sharebook.go:363-398 | Succeeds exactly for the entitled owner and a student that resolves in the grantee's collection; the grantee and the hash are appended; an unresolved student writes nothing |
| Properties.TransferBookSpec | sharebook/sharebook.go:449-462 | Any entitled caller may set the owner, and nothing else changes |
| Properties.UpdateBookSpec | sharebook/sharebook.go:400-423 | Needs only an existing key; writes a record with the five given fields, empty lists, no holder and the flag cleared |
| Properties.DeleteBookSpec | sharebook/sharebook.go:426-436 | Needs an existing key and removes exactly that key |
| Properties.RegStudentOutcome | sharebook/sharebook.go:106-113 | RegStudent succeeds exactly for a caller with a collection; otherwise it fails with the parse error and changes nothing |
| Properties.RegStudentSpec | sharebook/sharebook.go:70-141 | For a caller with a collection: raises that collection's counter and stores student_<count>@<domain> with the caller as org; nothing else changes |
| Properties.RegisteredStudentResolves | sharebook/sharebook.go:70-141 | A student just registered resolves to the hash of its record for its own organisation |
| Properties.RegisterMintsDistinctIds | sharebook/sharebook.go:115-126 | Two registrations in one collection mint different ids, also by two different callers that share the collection, and the second keeps the first student |
| Properties.CounterRecordResolves | sharebook/sharebook.go:211-224 | The StudentConfig counter record passes the hash lookup like a student |
| Properties.HashIgnoresPublicData | sharebook/sharebook.go:211-224 | The hash lookup depends only on the private collections |
| Properties.BorrowAfterGrant | sharebook/sharebook.go:320-398 | After a grant, a borrow of a free book succeeds exactly when the org was entitled or is the grantee, and the student's hash was listed or is the granted one |
| Properties.GrantedPairMayBorrow | sharebook/sharebook.go:320-398 | The granted (organisation, student) pair may borrow the free book at once |
| Properties.GrantedPairMayRequest | sharebook/sharebook.go:226-398 | After a grant, the granted pair may queue a request for the book while it is out |
| Properties.CounterResetByDelete | sharebook/sharebook.go:426-436 | Deleting "BookConfig" succeeds, and the next CreateBook replaces book_1 and its owner |
| Properties.CounterResetByUpdate | sharebook/sharebook.go:400-423 | Overwriting "BookConfig" with a book record succeeds, and the next CreateBook replaces book_1 and its owner |
| Properties.CreateMintsFreshKey | sharebook/sharebook.go:152-160 | While the counter covers every minted key, CreateBook's key holds no book yet |
| Properties.EmptyCountCovers | sharebook/sharebook.go:152-156 | The empty ledger satisfies CountCovers |
| Properties.CounterNotVisible | sharebook/sharebook.go:193-208 | The counter record reads as a book nobody may see |
| Properties.CountCoversKept | sharebook/sharebook.go:144-462 | With UpdateBook and DeleteBook refusing the counter record, every transaction keeps CountCovers |
| Properties.ReturnAgreesWithIntended | sharebook/sharebook.go:299-312 | The written and the intended return agree on the holder and the flag. With requests, the written queue is n-1 zero requesters followed by the intended queue. With none, they differ only in the holder |
| Properties.IntendedReturnPopsHead | sharebook/sharebook.go:299-309 | The intended return gives the book to the head of the queue and removes exactly that request |
| Properties.PaddingStrandsQueue | sharebook/sharebook.go:299-309 | With two waiting requests, two written returns hand the book to the zero requester and every later return fails; the intended return hands it to the last requester |
| Properties.FailureChangesNothing | sharebook/sharebook.go:70-462 | A transaction that fails leaves the world state unchanged |
| Properties.GuardedCallsNeedVisibility | sharebook/sharebook.go:226-462 | AddRequest, ReturnBook, BorrowBook, GrantBook and TransferBook succeed only for a caller on the entitle list |
| Properties.IdleWhenFreePreserved | sharebook/sharebook.go:226-361 | Every transaction keeps "a free book has no waiting request" |
| Properties.ReleasedWhenFreeKeptByOthers | sharebook/sharebook.go:144-462 | Every transaction but ReturnBook keeps "a free book has neither holder nor request" |
| Properties.ReturnKeepsHolder | sharebook/sharebook.go:310-312 | Returning a book nobody waits for clears the flag but leaves the holder in place, breaking that invariant |
| Properties.IntendedReturnKeepsReleased | sharebook/sharebook.go:299-312 | The intended return keeps "a free book has neither holder nor request" |
| Chaincode.Includes | sharebook/sharebook.go:202-206 | The linear search of a list finds `x` exactly when `x` is in the list |
| Chaincode.EntitledReader | sharebook/sharebook.go:251-266 | The nested search succeeds exactly when the caller is entitled and the hash is on the reader list |
| Chaincode.Ledger.BookExists | sharebook/sharebook.go:439-446 | True exactly when the key is present |
| Chaincode.Ledger.GetBook | sharebook/sharebook.go:184-209 | Returns what Contract.GetBook says: the stored book, not-found or not-entitled |
| Chaincode.Ledger.GetStudentHash | sharebook/sharebook.go:211-224 | Returns what Contract.StudentHash says: the hash of the record in the client's collection, or the parse or not-found error |
| Chaincode.Ledger.RegStudent | sharebook/sharebook.go:70-141 | The outcome and new state are those of Contract.RegStudent |
| Chaincode.Ledger.CreateBook | sharebook/sharebook.go:144-180 | The new state is that of Contract.CreateBook |
| Chaincode.Ledger.AddRequest | sharebook/sharebook.go:226-267 | The outcome and new state are those of Contract.AddRequest |
| Chaincode.Ledger.ReturnBook | sharebook/sharebook.go:269-318 | The outcome and new state are those of Contract.ReturnBook, including the padded queue its loop builds |
| Chaincode.Ledger.BorrowBook | sharebook/sharebook.go:320-361 | The outcome and new state are those of Contract.BorrowBook |
| Chaincode.Ledger.GrantBook | sharebook/sharebook.go:363-398 | The outcome and new state are those of Contract.GrantBook |
| Chaincode.Ledger.UpdateBook | sharebook/sharebook.go:400-423 | The outcome and new state are those of Contract.UpdateBook |
| Chaincode.Ledger.DeleteBook | sharebook/sharebook.go:426-436 | The outcome and new state are those of Contract.DeleteBook |
| Chaincode.Ledger.TransferBook | sharebook/sharebook.go:449-462 | The outcome and new state are those of Contract.TransferBook |
| Contract.BooksAt | sharebook/sharebook.go:485-492 | One book per key, each read from its key |
| Contract.StudentsAt | sharebook/sharebook.go:541-547 | One student per key, each read from its key |
| Chaincode.Ledger.GetAllBooks | sharebook/sharebook.go:465-501 | The scan loop returns Contract.GetAllBooks (characterised by Properties.GetAllBooksSpec) |
| Chaincode.Ledger.GetAllStudents | sharebook/sharebook.go:516-553 | Returns Contract.GetAllStudents (characterised by Properties.GetAllStudentsSpec) |
| Chaincode.ScanBooks | sharebook/sharebook.go:472-497 | The scan loop over the public namespace returns Contract.GetAllBooks |
| Chaincode.ScanStudents | sharebook/sharebook.go:534-550 | The scan loop over one collection returns Contract.StudentListing |

## Left out

- GetClientName: the PEM parsing of the creator certificate is not modelled. The caller's common name is a parameter of every transaction.
- The transient map and JSON: RegStudent's name, phone and email are plain parameters, and records are values. Marshalling errors cannot occur in the model.
- The hash primitive: GetPrivateDataHash is the abstract `Digest`, already hex-encoded.
- Store errors: errors from GetState, PutState, GetPrivateData and the iterators are not modelled. The stub calls always succeed.
- Concurrency: MVCC validation and endorsement are left out.
- Logging and `main` are left out.
- BookTypes.BookCount: the counters are unbounded `nat`, so the 64-bit overflow of Go's `int` after 2^63-1 creations is not modelled.
- Contract.Collection: a collection never written reads as empty, which is what the private-data reads return for a collection with no keys.
- Text.SortedKeys: composite keys play no part here. The open range scan is modelled as an ordering of every simple key.
- Chaincode.Ledger.GetAllBooks: the returned slice holds pointers to copies; the model returns the values.

## Findings

| source | as written | input that shows it | evidently intended | confidence | as-written member | corrected member |
|---|---|---|---|---|---|---|
| sharebook/sharebook.go:301-309 | `make([]BookRequester, n-1)` followed by `append`, giving n-1 zero requesters in front of the remaining requests | A borrowed book with queue [(o,s1), (o,s2)]: after the holder returns it, the queue is [zero, (o,s2)]; after (o,s1) returns it, the holder is the zero requester and nobody can return it again | `make([]BookRequester, 0)`: the queue loses exactly its head | not executed | Properties.PaddingStrandsQueue | Contract.ReturnedIntended |
| sharebook/sharebook.go:426-436 | DeleteBook removes any existing key, "BookConfig" included | Create book_1 as alice, delete "BookConfig", create again as bob: book_1 now belongs to bob | Refuse the counter record, so the count never goes back | not executed | Properties.CounterResetByDelete | Contract.DeleteBookIntended |
| sharebook/sharebook.go:400-423 | UpdateBook overwrites any existing key, "BookConfig" included, with a book record, which reads as count 0 | Create book_1 as alice, update "BookConfig", create again as bob: book_1 now belongs to bob | Refuse the counter record likewise | not executed | Properties.CounterResetByUpdate | Contract.UpdateBookIntended |
| sharebook/sharebook.go:310-312 | With an empty queue only `IsBorrowed` is cleared | A borrowed book with an empty queue, returned by its holder (o,s), is free but still has holder (o,s) | Also set `Holder` to the zero requester | not executed | Properties.ReturnKeepsHolder | Contract.ReturnBookIntended |

Corrected members:

- `Contract.ReturnedIntended` is proved to pop exactly the head of the queue (`Properties.IntendedReturnPopsHead`).
- `Contract.ReturnBookIntended` is proved to keep the invariant "a free book has neither holder nor request" (`Properties.IntendedReturnKeepsReleased`). `Properties.ReleasedWhenFreeKeptByOthers` shows that every other transaction keeps it too.

- `Contract.UpdateBookIntended` and `Contract.DeleteBookIntended` make every transaction keep `Properties.CountCovers` (`Properties.CountCoversKept`). That invariant holds on the empty ledger (`Properties.EmptyCountCovers`), and under it CreateBook never mints a key that already holds a book (`Properties.CreateMintsFreshKey`).

The class `Ledger` reproduces the chaincode as written, so its ReturnBook, UpdateBook and DeleteBook are the written ones.
