/** The reference semantics of every chaincode transaction, as a function from the world state
    before the transaction to its outcome and the world state after it. A failed transaction
    leaves the world state as it was: the ledger discards its writes. */
module Contract {
  import opened BookTypes
  import opened Text
  import opened Identity

  /** The public namespace, and one private namespace per collection name. */
  datatype WorldState = WorldState(
    publicData: map<string, PublicValue>,
    privateData: map<string, map<string, PrivateValue>>)

  datatype Step = Step(outcome: Outcome, after: WorldState)

  /** The key CreateBook mints from the n-th count. */
  function BookKey(n: nat): string
  {
    "book_" + NatToString(n)
  }

  /** The key RegStudent mints from the n-th count of a collection. */
  function StudentKey(n: nat, domain: string): string
  {
    "student_" + NatToString(n) + "@" + domain
  }

  /** A student key determines its count and, when the domain holds no "@", its domain. */
  lemma StudentKeyInjective(m: nat, n: nat, d1: string, d2: string)
    requires '@' !in d1 && '@' !in d2
    requires StudentKey(m, d1) == StudentKey(n, d2)
    ensures m == n && d1 == d2
  {
    var p1, p2 := "student_" + NatToString(m), "student_" + NatToString(n);
    NumberedHasNo("student_", m, '@');
    NumberedHasNo("student_", n, '@');
    var s := StudentKey(m, d1);
    assert s == p1 + ['@'] + d1 && s == p2 + ['@'] + d2;
    FirstSepAt(p1, d1, '@');
    FirstSepAt(p2, d2, '@');
    assert p1 == s[..|p1|] && p2 == s[..|p2|];
    assert d1 == s[|p1| + 1..] && d2 == s[|p2| + 1..];
    NumberedInjective("student_", m, n);
  }

  /** A private collection; one that was never written is empty. */
  function Collection(w: WorldState, name: string): map<string, PrivateValue>
  {
    if name in w.privateData then w.privateData[name] else map[]
  }

  /** The book read back from key `id`. */
  function Stored(w: WorldState, id: string): Book
    requires id in w.publicData
  {
    BookOf(w.publicData[id])
  }

  function Put(w: WorldState, id: string, b: Book): WorldState
  {
    w.(publicData := w.publicData[id := BookValue(b)])
  }

  function Fail(w: WorldState, e: Error): Step
  {
    Step(Failed(e), w)
  }

  // ---------------------------------------------------------------- one book

  /** A freshly created book: free, owned by and visible to its creator only. */
  function NewBook(id: string, title: string, author: string, isbn: string, owner: string): Book
  {
    Book(id, title, author, isbn, owner, NoRequester, false, [], [owner], [])
  }

  /** The book UpdateBook writes: only the five given fields; every list empty, nobody holding it. */
  function Overwritten(id: string, title: string, author: string, isbn: string, owner: string): Book
  {
    Book(id, title, author, isbn, owner, NoRequester, false, [], [], [])
  }

  /** make([]BookRequester, n): n zero requesters. */
  function Blanks(n: nat): seq<BookRequester>
  {
    seq(n, _ => NoRequester)
  }

  function Borrowed(b: Book, r: BookRequester): Book
  {
    b.(holder := r, isBorrowed := true)
  }

  function Enqueued(b: Book, r: BookRequester): Book
  {
    b.(requestQueue := b.requestQueue + [r])
  }

  function Granted(b: Book, client: string, hash: string): Book
  {
    b.(entitleList := b.entitleList + [client], readerList := b.readerList + [hash])
  }

  function Transferred(b: Book, newOwner: string): Book
  {
    b.(owner := newOwner)
  }

  /** The queue ReturnBook builds: make(..., n-1) and then an append of every request but the first. */
  function PaddedQueue(q: seq<BookRequester>): seq<BookRequester>
    requires |q| > 0
  {
    Blanks(|q| - 1) + q[1..]
  }

  /** ReturnBook as written: with requests waiting, the first becomes the holder; otherwise only
      the borrowed flag is cleared. */
  function ReturnedAsWritten(b: Book): Book
  {
    if |b.requestQueue| > 0
    then b.(holder := b.requestQueue[0], requestQueue := PaddedQueue(b.requestQueue))
    else b.(isBorrowed := false)
  }

  /** ReturnBook as its queue is meant to work: the head of the queue becomes the holder and leaves
      the queue; with no request waiting the book becomes free with no holder. */
  function ReturnedIntended(b: Book): Book
  {
    if |b.requestQueue| > 0
    then b.(holder := b.requestQueue[0], requestQueue := b.requestQueue[1..])
    else b.(holder := NoRequester, isBorrowed := false)
  }

  // ---------------------------------------------------------------- reads

  function BookExists(w: WorldState, id: string): bool
  {
    id in w.publicData
  }

  /** GetBook: the stored book, to a caller on its entitle list. */
  function GetBook(w: WorldState, caller: string, id: string): Result<Book>
  {
    if id !in w.publicData then Err(BookNotFound(id))
    else if caller in Stored(w, id).entitleList then Ok(Stored(w, id))
    else Err(NotEntitled(id))
  }

  /** GetStudentHash: the content hash of `student` in the collection of organisation `client`. */
  function StudentHash(w: WorldState, digest: Digest, client: string, student: string): Result<string>
  {
    match GetPrivateCollection(client)
    case Err(e) => Err(e)
    case Ok(name) =>
      if student in Collection(w, name) then Ok(digest(Collection(w, name)[student]))
      else Err(StudentNotFound(student))
  }

  /** GetAllBooks returns the book under `k`. */
  predicate ListsBook(w: WorldState, caller: string, k: string)
  {
    k in w.publicData && Contains(k, "book_") && caller in Stored(w, k).entitleList
  }

  /** The keys among `scan` whose books GetAllBooks returns, in scan order. */
  function BookKeysIn(w: WorldState, caller: string, scan: seq<string>): seq<string>
  {
    Keep(scan, k => ListsBook(w, caller, k))
  }

  /** The books stored under `keys`, in that order. */
  function BooksAt(w: WorldState, keys: seq<string>): (r: seq<Book>)
    requires forall k :: k in keys ==> k in w.publicData
    ensures |r| == |keys|
    ensures forall i :: 0 <= i < |keys| ==> r[i] == Stored(w, keys[i])
    decreases |keys|
  {
    if keys == [] then [] else BooksAt(w, keys[..|keys| - 1]) + [Stored(w, keys[|keys| - 1])]
  }

  /** One more key scanned: GetAllBooks keeps it exactly when it lists its book. */
  lemma BookKeysStep(w: WorldState, caller: string, scan: seq<string>, i: nat)
    requires i < |scan|
    ensures BookKeysIn(w, caller, scan[..i + 1])
         == BookKeysIn(w, caller, scan[..i]) + if ListsBook(w, caller, scan[i]) then [scan[i]] else []
  {
    assert scan[..i + 1][..i] == scan[..i];
  }

  lemma BooksAtSnoc(w: WorldState, keys: seq<string>, k: string)
    requires forall j :: j in keys ==> j in w.publicData
    requires k in w.publicData
    ensures BooksAt(w, keys + [k]) == BooksAt(w, keys) + [Stored(w, k)]
  {
    assert (keys + [k])[..|keys|] == keys;
  }

  /** GetAllBooks: the caller's books, in the order of a range scan over the whole namespace. */
  ghost function GetAllBooks(w: WorldState, caller: string): seq<Book>
  {
    BooksAt(w, BookKeysIn(w, caller, ScanOrder(w.publicData.Keys)))
  }

  /** GetAllStudents, scanning the caller's collection `c`, returns the student under `k`. */
  predicate ListsStudent(c: map<string, PrivateValue>, caller: string, k: string)
  {
    k in c && Contains(k, "student_") && StudentOf(c[k]).org == caller
  }

  /** The keys among `scan` whose students GetAllStudents returns, in scan order. */
  function StudentKeysIn(c: map<string, PrivateValue>, caller: string, scan: seq<string>): seq<string>
  {
    Keep(scan, k => ListsStudent(c, caller, k))
  }

  /** The students stored under `keys`, in that order. */
  function StudentsAt(c: map<string, PrivateValue>, keys: seq<string>): (r: seq<Student>)
    requires forall k :: k in keys ==> k in c
    ensures |r| == |keys|
    ensures forall i :: 0 <= i < |keys| ==> r[i] == StudentOf(c[keys[i]])
    decreases |keys|
  {
    if keys == [] then [] else StudentsAt(c, keys[..|keys| - 1]) + [StudentOf(c[keys[|keys| - 1]])]
  }

  /** One more key scanned: GetAllStudents keeps it exactly when it lists its student. */
  lemma StudentKeysStep(c: map<string, PrivateValue>, caller: string, scan: seq<string>, i: nat)
    requires i < |scan|
    ensures StudentKeysIn(c, caller, scan[..i + 1])
         == StudentKeysIn(c, caller, scan[..i]) + if ListsStudent(c, caller, scan[i]) then [scan[i]] else []
  {
    assert scan[..i + 1][..i] == scan[..i];
  }

  lemma StudentsAtSnoc(c: map<string, PrivateValue>, keys: seq<string>, k: string)
    requires forall j :: j in keys ==> j in c
    requires k in c
    ensures StudentsAt(c, keys + [k]) == StudentsAt(c, keys) + [StudentOf(c[k])]
  {
    assert (keys + [k])[..|keys|] == keys;
  }

  /** The students GetAllStudents returns from collection `c`, in scan order. */
  ghost function StudentListing(c: map<string, PrivateValue>, caller: string): seq<Student>
  {
    StudentsAt(c, StudentKeysIn(c, caller, ScanOrder(c.Keys)))
  }

  /** GetAllStudents: the caller's students in its own collection, or the parse error. */
  ghost function GetAllStudents(w: WorldState, caller: string): Result<seq<Student>>
  {
    match GetPrivateCollection(caller)
    case Err(e) => Err(e)
    case Ok(name) => Ok(StudentListing(Collection(w, name), caller))
  }

  // ---------------------------------------------------------------- transactions

  function CreateBook(w: WorldState, caller: string, title: string, author: string, isbn: string): WorldState
  {
    var n := BookCount(w.publicData) + 1;
    var id := BookKey(n);
    w.(publicData := w.publicData[BookConfigKey := BookConfigValue(n)][id := BookValue(NewBook(id, title, author, isbn, caller))])
  }

  function RegStudent(w: WorldState, caller: string, name: string, phone: string, email: string): Step
  {
    var domain := Domain(caller);
    match GetPrivateCollection(caller)
    case Err(e) => Fail(w, e)
    case Ok(coll) =>
      var c := Collection(w, coll);
      var n := StudentCount(c) + 1;
      var id := StudentKey(n, domain);
      var c' := c[StudentConfigKey := StudentConfigValue(n)][id := StudentValue(Student(caller, id, name, phone, email))];
      Step(Done, w.(privateData := w.privateData[coll := c']))
  }

  function AddRequest(w: WorldState, digest: Digest, caller: string, id: string, student: string): Step
  {
    if !BookExists(w, id) then Fail(w, BookNotFound(id))
    else match GetBook(w, caller, id)
      case Err(e) => Fail(w, e)
      case Ok(b) =>
        if !b.isBorrowed then Fail(w, NotBorrowed(id))
        else match StudentHash(w, digest, caller, student)
          case Err(e) => Fail(w, e)
          case Ok(h) =>
            if caller in b.entitleList && h in b.readerList
            then Step(Done, Put(w, id, Enqueued(b, BookRequester(caller, student))))
            else Fail(w, NotEntitled(id))
  }

  /** The guards ReturnBook checks before it changes the book; `returned` is how it changes it. */
  function ReturnWith(w: WorldState, digest: Digest, caller: string, id: string, student: string,
                      returned: Book -> Book): Step
  {
    if !BookExists(w, id) then Fail(w, BookNotFound(id))
    else match GetBook(w, caller, id)
      case Err(e) => Fail(w, e)
      case Ok(b) =>
        if !b.isBorrowed then Fail(w, NotBorrowed(id))
        else if caller != b.holder.org || student != b.holder.studentId then Fail(w, NotHolder(id))
        else match StudentHash(w, digest, caller, student)
          case Err(e) => Fail(w, e)
          case Ok(_) => Step(Done, Put(w, id, returned(b)))
  }

  function ReturnBook(w: WorldState, digest: Digest, caller: string, id: string, student: string): Step
  {
    ReturnWith(w, digest, caller, id, student, ReturnedAsWritten)
  }

  /** ReturnBook with the corrected queue handling of ReturnedIntended. */
  function ReturnBookIntended(w: WorldState, digest: Digest, caller: string, id: string, student: string): Step
  {
    ReturnWith(w, digest, caller, id, student, ReturnedIntended)
  }

  function BorrowBook(w: WorldState, digest: Digest, caller: string, id: string, student: string): Step
  {
    if !BookExists(w, id) then Fail(w, BookNotFound(id))
    else match GetBook(w, caller, id)
      case Err(e) => Fail(w, e)
      case Ok(b) =>
        if b.isBorrowed then Fail(w, AlreadyBorrowed(id))
        else match StudentHash(w, digest, caller, student)
          case Err(e) => Fail(w, e)
          case Ok(h) =>
            if caller in b.entitleList && h in b.readerList
            then Step(Done, Put(w, id, Borrowed(b, BookRequester(caller, student))))
            else Fail(w, NotEntitled(id))
  }

  function GrantBook(w: WorldState, digest: Digest, caller: string, id: string, client: string, student: string): Step
  {
    if !BookExists(w, id) then Fail(w, BookNotFound(id))
    else match GetBook(w, caller, id)
      case Err(e) => Fail(w, e)
      case Ok(b) =>
        if b.owner != caller then Fail(w, NotOwner(id))
        else match StudentHash(w, digest, client, student)
          case Err(e) => Fail(w, e)
          case Ok(h) => Step(Done, Put(w, id, Granted(b, client, h)))
  }

  function UpdateBook(w: WorldState, id: string, title: string, author: string, isbn: string, owner: string): Step
  {
    if !BookExists(w, id) then Fail(w, BookNotFound(id))
    else Step(Done, Put(w, id, Overwritten(id, title, author, isbn, owner)))
  }

  /** UpdateBook refusing the counter record, which is not a book. */
  function UpdateBookIntended(w: WorldState, id: string, title: string, author: string, isbn: string, owner: string): Step
  {
    if id == BookConfigKey then Fail(w, BookNotFound(id)) else UpdateBook(w, id, title, author, isbn, owner)
  }

  /** DeleteBook refusing the counter record, which is not a book. */
  function DeleteBookIntended(w: WorldState, id: string): Step
  {
    if id == BookConfigKey then Fail(w, BookNotFound(id)) else DeleteBook(w, id)
  }

  function DeleteBook(w: WorldState, id: string): Step
  {
    if !BookExists(w, id) then Fail(w, BookNotFound(id))
    else Step(Done, w.(publicData := w.publicData - {id}))
  }

  function TransferBook(w: WorldState, caller: string, id: string, newOwner: string): Step
  {
    match GetBook(w, caller, id)
    case Err(e) => Fail(w, e)
    case Ok(b) => Step(Done, Put(w, id, Transferred(b, newOwner)))
  }
}
