/** What the chaincode's transactions guarantee, proved about their reference semantics. */
module Properties {
  import opened BookTypes
  import opened Text
  import opened Identity
  import opened Contract

  /** The student `student` of organisation `caller` resolves to a hash on the reader list of `b`. */
  predicate Vetted(w: WorldState, digest: Digest, b: Book, caller: string, student: string)
  {
    StudentHash(w, digest, caller, student).Ok? && StudentHash(w, digest, caller, student).value in b.readerList
  }

  /** `caller` may see the book under `id`. */
  predicate Visible(w: WorldState, caller: string, id: string)
  {
    id in w.publicData && caller in Stored(w, id).entitleList
  }

  lemma BookKeyNotConfig(n: nat)
    ensures BookKey(n) != BookConfigKey
  {
    assert BookKey(n)[0] == 'b';
  }

  lemma StudentKeyNotConfig(n: nat, domain: string)
    ensures StudentKey(n, domain) != StudentConfigKey
  {
    assert StudentKey(n, domain)[0] == 's';
  }

  // ---------------------------------------------------------------- CreateBook and GetBook

  /** CreateBook raises the counter by one (from 0 when absent), stores the new book under
      book_<count> and touches no other key. */
  lemma CreateBookSpec(w: WorldState, caller: string, title: string, author: string, isbn: string)
    ensures var n, r := BookCount(w.publicData) + 1, CreateBook(w, caller, title, author, isbn);
      && BookCount(r.publicData) == n
      && BookKey(n) in r.publicData
      && r.publicData[BookKey(n)] == BookValue(Book(BookKey(n), title, author, isbn, caller, NoRequester, false, [], [caller], []))
      && r.publicData.Keys == w.publicData.Keys + {BookConfigKey, BookKey(n)}
      && (forall k :: k in w.publicData && k != BookConfigKey && k != BookKey(n) ==> r.publicData[k] == w.publicData[k])
      && r.privateData == w.privateData
  {
    BookKeyNotConfig(BookCount(w.publicData) + 1);
  }

  /** Round trip: the creator reads back exactly what it created. */
  lemma CreateThenGet(w: WorldState, caller: string, title: string, author: string, isbn: string)
    ensures var n := BookCount(w.publicData) + 1;
      GetBook(CreateBook(w, caller, title, author, isbn), caller, BookKey(n))
        == Ok(Book(BookKey(n), title, author, isbn, caller, NoRequester, false, [], [caller], []))
  {
  }

  /** Two successive creations mint two different identifiers; the second leaves the first book alone. */
  lemma CreateMintsDistinctIds(w: WorldState, c1: string, t1: string, a1: string, i1: string,
                               c2: string, t2: string, a2: string, i2: string)
    ensures var w1 := CreateBook(w, c1, t1, a1, i1);
            var w2 := CreateBook(w1, c2, t2, a2, i2);
            var id1, id2 := BookKey(BookCount(w.publicData) + 1), BookKey(BookCount(w1.publicData) + 1);
      && id1 != id2
      && id1 in w2.publicData && id2 in w2.publicData
      && w2.publicData[id1] == w1.publicData[id1]
  {
    var n := BookCount(w.publicData) + 1;
    CreateBookSpec(w, c1, t1, a1, i1);
    var w1 := CreateBook(w, c1, t1, a1, i1);
    CreateBookSpec(w1, c2, t2, a2, i2);
    if BookKey(n) == BookKey(n + 1) {
      NumberedInjective("book_", n, n + 1);
    }
  }

  /** A created book shows up in its creator's listing. */
  lemma CreatedBookListed(w: WorldState, caller: string, title: string, author: string, isbn: string)
    ensures ListsBook(CreateBook(w, caller, title, author, isbn), caller, BookKey(BookCount(w.publicData) + 1))
  {
    ContainsPrefix("book_", NatToString(BookCount(w.publicData) + 1));
  }

  /** GetAllBooks returns exactly the caller's books (keys containing "book_", caller on the entitle
      list), each once, in ascending key order. */
  lemma GetAllBooksSpec(w: WorldState, caller: string)
    ensures var keys := BookKeysIn(w, caller, ScanOrder(w.publicData.Keys));
      && (forall k :: k in keys <==> ListsBook(w, caller, k))
      && Ascending(keys)
      && |GetAllBooks(w, caller)| == |keys|
      && (forall i :: 0 <= i < |keys| ==> GetAllBooks(w, caller)[i] == Stored(w, keys[i]))
  {
    KeepAscending(ScanOrder(w.publicData.Keys), k => ListsBook(w, caller, k));
  }

  /** Every book GetAllBooks should list is in its result. */
  lemma ListedBookReturned(w: WorldState, caller: string, k: string)
    requires ListsBook(w, caller, k)
    ensures Stored(w, k) in GetAllBooks(w, caller)
  {
    GetAllBooksSpec(w, caller);
    var keys := BookKeysIn(w, caller, ScanOrder(w.publicData.Keys));
    var i :| 0 <= i < |keys| && keys[i] == k;
    assert GetAllBooks(w, caller)[i] == Stored(w, k);
  }

  /** A created book shows up in its creator's GetAllBooks result. */
  lemma CreatedBookInListing(w: WorldState, caller: string, title: string, author: string, isbn: string)
    ensures var n := BookCount(w.publicData) + 1;
      NewBook(BookKey(n), title, author, isbn, caller) in GetAllBooks(CreateBook(w, caller, title, author, isbn), caller)
  {
    CreatedBookListed(w, caller, title, author, isbn);
    ListedBookReturned(CreateBook(w, caller, title, author, isbn), caller, BookKey(BookCount(w.publicData) + 1));
  }

  /** GetAllStudents fails exactly for a caller without a collection; otherwise it returns exactly the
      students of that collection whose key contains "student_" and whose org is the caller, each
      once, in ascending key order. */
  lemma GetAllStudentsSpec(w: WorldState, caller: string)
    ensures GetAllStudents(w, caller).Err? <==> GetPrivateCollection(caller).Err?
    ensures GetAllStudents(w, caller).Err? ==> GetAllStudents(w, caller).error == OrgUnparsable(caller)
    ensures GetAllStudents(w, caller).Ok? ==>
      var c := Collection(w, GetPrivateCollection(caller).value);
      var keys := StudentKeysIn(c, caller, ScanOrder(c.Keys));
      && (forall k :: k in keys <==> ListsStudent(c, caller, k))
      && Ascending(keys)
      && |GetAllStudents(w, caller).value| == |keys|
      && (forall i :: 0 <= i < |keys| ==> GetAllStudents(w, caller).value[i] == StudentOf(c[keys[i]]))
  {
    if GetPrivateCollection(caller).Ok? {
      var c := Collection(w, GetPrivateCollection(caller).value);
      KeepAscending(ScanOrder(c.Keys), k => ListsStudent(c, caller, k));
    }
  }

  /** Every student GetAllStudents should list from collection `c` is in its result. */
  lemma ListedStudentReturned(c: map<string, PrivateValue>, caller: string, k: string)
    requires ListsStudent(c, caller, k)
    ensures StudentOf(c[k]) in StudentListing(c, caller)
  {
    KeepAscending(ScanOrder(c.Keys), k => ListsStudent(c, caller, k));
    var keys := StudentKeysIn(c, caller, ScanOrder(c.Keys));
    assert k in keys;
    var i :| 0 <= i < |keys| && keys[i] == k;
    assert StudentListing(c, caller)[i] == StudentOf(c[k]);
  }

  /** A registered student shows up in its organisation's GetAllStudents result. */
  lemma RegisteredStudentListed(w: WorldState, caller: string, name: string, phone: string, email: string)
    requires GetPrivateCollection(caller).Ok?
    ensures var coll := GetPrivateCollection(caller).value;
            var id := StudentKey(StudentCount(Collection(w, coll)) + 1, Domain(caller));
            var r := GetAllStudents(RegStudent(w, caller, name, phone, email).after, caller);
      r.Ok? && Student(caller, id, name, phone, email) in r.value
  {
    var coll := GetPrivateCollection(caller).value;
    var n := StudentCount(Collection(w, coll)) + 1;
    var id := StudentKey(n, Domain(caller));
    var after := RegStudent(w, caller, name, phone, email).after;
    RegStudentStores(w, caller, name, phone, email);
    StudentKeyListed(Collection(after, coll), caller, n, Domain(caller));
    ListedStudentReturned(Collection(after, coll), caller, id);
  }

  /** What RegStudent writes under the new key of the caller's collection. */
  lemma RegStudentStores(w: WorldState, caller: string, name: string, phone: string, email: string)
    requires GetPrivateCollection(caller).Ok?
    ensures var coll := GetPrivateCollection(caller).value;
            var id := StudentKey(StudentCount(Collection(w, coll)) + 1, Domain(caller));
            var c := Collection(RegStudent(w, caller, name, phone, email).after, coll);
      id in c && c[id] == StudentValue(Student(caller, id, name, phone, email))
  {
  }

  /** A student record of `caller` under a minted key is one GetAllStudents lists for `caller`. */
  lemma StudentKeyListed(c: map<string, PrivateValue>, caller: string, n: nat, domain: string)
    requires StudentKey(n, domain) in c && StudentOf(c[StudentKey(n, domain)]).org == caller
    ensures ListsStudent(c, caller, StudentKey(n, domain))
  {
    assert StudentKey(n, domain) == "student_" + (NatToString(n) + "@" + domain);
    ContainsPrefix("student_", NatToString(n) + "@" + domain);
  }

  /** GetBook answers only a caller on the entitle list, and then with the stored book. */
  lemma GetBookSpec(w: WorldState, caller: string, id: string)
    ensures GetBook(w, caller, id).Ok? <==> Visible(w, caller, id)
    ensures GetBook(w, caller, id).Ok? ==> GetBook(w, caller, id).value == Stored(w, id)
    ensures id !in w.publicData ==> GetBook(w, caller, id) == Err(BookNotFound(id))
    ensures id in w.publicData && !Visible(w, caller, id) ==> GetBook(w, caller, id) == Err(NotEntitled(id))
  {
  }

  // ---------------------------------------------------------------- lending

  lemma BorrowBookSpec(w: WorldState, digest: Digest, caller: string, id: string, student: string)
    ensures var r := BorrowBook(w, digest, caller, id, student);
      r.outcome.Done? <==>
        && Visible(w, caller, id)
        && !Stored(w, id).isBorrowed
        && Vetted(w, digest, Stored(w, id), caller, student)
    ensures var r := BorrowBook(w, digest, caller, id, student);
      r.outcome.Done? ==>
        r.after == Put(w, id, Stored(w, id).(holder := BookRequester(caller, student), isBorrowed := true))
    ensures var r := BorrowBook(w, digest, caller, id, student);
      r.outcome.Failed? ==> r.after == w
    ensures Visible(w, caller, id) && Stored(w, id).isBorrowed ==>
      BorrowBook(w, digest, caller, id, student).outcome == Failed(AlreadyBorrowed(id))
  {
  }

  lemma AddRequestSpec(w: WorldState, digest: Digest, caller: string, id: string, student: string)
    ensures var r := AddRequest(w, digest, caller, id, student);
      r.outcome.Done? <==>
        && Visible(w, caller, id)
        && Stored(w, id).isBorrowed
        && Vetted(w, digest, Stored(w, id), caller, student)
    ensures var r := AddRequest(w, digest, caller, id, student);
      r.outcome.Done? ==>
        r.after == Put(w, id, Stored(w, id).(requestQueue := Stored(w, id).requestQueue + [BookRequester(caller, student)]))
    ensures var r := AddRequest(w, digest, caller, id, student);
      r.outcome.Failed? ==> r.after == w
    ensures Visible(w, caller, id) && !Stored(w, id).isBorrowed ==>
      AddRequest(w, digest, caller, id, student).outcome == Failed(NotBorrowed(id))
  {
  }

  /** ReturnBook succeeds only for the holder of a borrowed book whose student still resolves. With
      n > 0 requests waiting, the first becomes the holder and the queue grows to 2(n-1) entries:
      n-1 zero requesters, then the old queue without its head. With none, only the flag is cleared. */
  lemma ReturnBookSpec(w: WorldState, digest: Digest, caller: string, id: string, student: string)
    ensures var r := ReturnBook(w, digest, caller, id, student);
      r.outcome.Done? <==>
        && Visible(w, caller, id)
        && Stored(w, id).isBorrowed
        && Stored(w, id).holder == BookRequester(caller, student)
        && StudentHash(w, digest, caller, student).Ok?
    ensures var r := ReturnBook(w, digest, caller, id, student);
      r.outcome.Failed? ==> r.after == w
    ensures var r := ReturnBook(w, digest, caller, id, student);
      r.outcome.Done? ==>
        var b, n := Stored(w, id), |Stored(w, id).requestQueue|;
        && r.after.privateData == w.privateData
        && r.after.publicData.Keys == w.publicData.Keys
        && (forall k :: k in w.publicData && k != id ==> r.after.publicData[k] == w.publicData[k])
        && (n == 0 ==> Stored(r.after, id) == b.(isBorrowed := false))
        && (n > 0 ==>
              var q' := Stored(r.after, id).requestQueue;
              && Stored(r.after, id) == b.(holder := b.requestQueue[0], requestQueue := q')
              && |q'| == 2 * (n - 1)
              && (forall i :: 0 <= i < n - 1 ==> q'[i] == NoRequester)
              && q'[n - 1..] == b.requestQueue[1..])
    ensures Visible(w, caller, id) && Stored(w, id).isBorrowed && Stored(w, id).holder != BookRequester(caller, student) ==>
      ReturnBook(w, digest, caller, id, student).outcome == Failed(NotHolder(id))
  {
  }

  /** GrantBook: only the owner, itself entitled, may grant, and only a student that resolves in the
      grantee's collection; the grantee and the hash are each appended once. When the hash does not
      resolve nothing is written, although the grantee had already been appended in memory. */
  lemma GrantBookSpec(w: WorldState, digest: Digest, caller: string, id: string, client: string, student: string)
    ensures var r := GrantBook(w, digest, caller, id, client, student);
      r.outcome.Done? <==>
        && Visible(w, caller, id)
        && Stored(w, id).owner == caller
        && StudentHash(w, digest, client, student).Ok?
    ensures var r := GrantBook(w, digest, caller, id, client, student);
      r.outcome.Done? ==>
        var b := Stored(w, id);
        r.after == Put(w, id, b.(entitleList := b.entitleList + [client],
                                 readerList := b.readerList + [StudentHash(w, digest, client, student).value]))
    ensures var r := GrantBook(w, digest, caller, id, client, student);
      r.outcome.Failed? ==> r.after == w
    ensures Visible(w, caller, id) && Stored(w, id).owner != caller ==>
      GrantBook(w, digest, caller, id, client, student).outcome == Failed(NotOwner(id))
    ensures Visible(w, caller, id) && Stored(w, id).owner == caller && StudentHash(w, digest, client, student).Err? ==>
      GrantBook(w, digest, caller, id, client, student) == Step(Failed(StudentHash(w, digest, client, student).error), w)
  {
  }

  /** TransferBook lets anyone who can see the book rewrite its owner, and changes nothing else. */
  lemma TransferBookSpec(w: WorldState, caller: string, id: string, newOwner: string)
    ensures var r := TransferBook(w, caller, id, newOwner);
      r.outcome.Done? <==> Visible(w, caller, id)
    ensures var r := TransferBook(w, caller, id, newOwner);
      r.outcome.Done? ==> r.after == Put(w, id, Stored(w, id).(owner := newOwner))
    ensures var r := TransferBook(w, caller, id, newOwner);
      r.outcome.Failed? ==> r.after == w
  {
  }

  /** UpdateBook needs only an existing key; it replaces the record by one that keeps the five given
      fields and has empty lists, no holder and the borrowed flag cleared. */
  lemma UpdateBookSpec(w: WorldState, id: string, title: string, author: string, isbn: string, owner: string)
    ensures var r := UpdateBook(w, id, title, author, isbn, owner);
      r.outcome.Done? <==> id in w.publicData
    ensures var r := UpdateBook(w, id, title, author, isbn, owner);
      r.outcome.Done? ==>
        && r.after.publicData == w.publicData[id := BookValue(Book(id, title, author, isbn, owner, NoRequester, false, [], [], []))]
        && r.after.privateData == w.privateData
    ensures var r := UpdateBook(w, id, title, author, isbn, owner);
      r.outcome.Failed? ==> r.after == w && r.outcome.error == BookNotFound(id)
  {
  }

  /** DeleteBook needs an existing key and removes that key only. */
  lemma DeleteBookSpec(w: WorldState, id: string)
    ensures var r := DeleteBook(w, id);
      r.outcome.Done? <==> id in w.publicData
    ensures var r := DeleteBook(w, id);
      r.outcome.Done? ==>
        && r.after.publicData.Keys == w.publicData.Keys - {id}
        && (forall k :: k in r.after.publicData ==> r.after.publicData[k] == w.publicData[k])
        && r.after.privateData == w.privateData
    ensures var r := DeleteBook(w, id);
      r.outcome.Failed? ==> r.after == w && r.outcome.error == BookNotFound(id)
  {
  }

  // ---------------------------------------------------------------- students

  /** RegStudent succeeds exactly for a caller with a collection, and a failure changes nothing. */
  lemma RegStudentOutcome(w: WorldState, caller: string, name: string, phone: string, email: string)
    ensures var r := RegStudent(w, caller, name, phone, email);
      r.outcome.Done? <==> GetPrivateCollection(caller).Ok?
    ensures var r := RegStudent(w, caller, name, phone, email);
      r.outcome.Failed? ==> r.after == w && r.outcome.error == OrgUnparsable(caller)
  {
  }

  /** For a caller with a collection, RegStudent raises that collection's counter and stores
      student_<count>@<domain> with the caller as organisation; nothing else changes. */
  lemma RegStudentSpec(w: WorldState, caller: string, name: string, phone: string, email: string)
    requires GetPrivateCollection(caller).Ok?
    ensures var r := RegStudent(w, caller, name, phone, email);
        var coll := GetPrivateCollection(caller).value;
        var n := StudentCount(Collection(w, coll)) + 1;
        var id := StudentKey(n, Domain(caller));
        && r.outcome == Done
        && StudentCount(Collection(r.after, coll)) == n
        && id in Collection(r.after, coll)
        && Collection(r.after, coll)[id] == StudentValue(Student(caller, id, name, phone, email))
        && Collection(r.after, coll).Keys == Collection(w, coll).Keys + {StudentConfigKey, id}
        && (forall k :: k in Collection(w, coll) && k != StudentConfigKey && k != id ==>
              Collection(r.after, coll)[k] == Collection(w, coll)[k])
        && (forall other :: other != coll ==> Collection(r.after, other) == Collection(w, other))
        && r.after.publicData == w.publicData
  {
    StudentKeyNotConfig(StudentCount(Collection(w, GetPrivateCollection(caller).value)) + 1, Domain(caller));
  }

  /** A registered student can at once be resolved to its hash by its own organisation. */
  lemma RegisteredStudentResolves(w: WorldState, digest: Digest, caller: string, name: string, phone: string, email: string)
    requires GetPrivateCollection(caller).Ok?
    ensures var r := RegStudent(w, caller, name, phone, email);
            var coll := GetPrivateCollection(caller).value;
            var id := StudentKey(StudentCount(Collection(w, coll)) + 1, Domain(caller));
      StudentHash(r.after, digest, caller, id) == Ok(digest(StudentValue(Student(caller, id, name, phone, email))))
  {
    RegStudentSpec(w, caller, name, phone, email);
  }

  /** Two registrations in one collection mint different identifiers, also when two different callers
      share the collection (the pattern is unanchored); the second keeps the first student. */
  lemma RegisterMintsDistinctIds(w: WorldState, c1: string, n1: string, p1: string, e1: string,
                                 c2: string, n2: string, p2: string, e2: string)
    requires GetPrivateCollection(c1).Ok?
    requires GetPrivateCollection(c2) == GetPrivateCollection(c1)
    ensures var coll := GetPrivateCollection(c1).value;
            var w1 := RegStudent(w, c1, n1, p1, e1).after;
            var w2 := RegStudent(w1, c2, n2, p2, e2).after;
            var id1 := StudentKey(StudentCount(Collection(w, coll)) + 1, Domain(c1));
            var id2 := StudentKey(StudentCount(Collection(w1, coll)) + 1, Domain(c2));
      && id1 != id2
      && id1 in Collection(w2, coll) && id2 in Collection(w2, coll)
      && Collection(w2, coll)[id1] == Collection(w1, coll)[id1]
  {
    var coll := GetPrivateCollection(c1).value;
    var n := StudentCount(Collection(w, coll)) + 1;
    RegStudentSpec(w, c1, n1, p1, e1);
    var w1 := RegStudent(w, c1, n1, p1, e1).after;
    RegStudentSpec(w1, c2, n2, p2, e2);
    if StudentKey(n, Domain(c1)) == StudentKey(n + 1, Domain(c2)) {
      StudentKeyInjective(n, n + 1, Domain(c1), Domain(c2));
    }
  }


  /** The counter record of a collection passes the hash lookup like a student does. */
  lemma CounterRecordResolves(w: WorldState, digest: Digest, client: string)
    requires GetPrivateCollection(client).Ok?
    requires StudentConfigKey in Collection(w, GetPrivateCollection(client).value)
    ensures StudentHash(w, digest, client, StudentConfigKey)
      == Ok(digest(Collection(w, GetPrivateCollection(client).value)[StudentConfigKey]))
  {
  }

  /** The hash lookup depends on the private collections only. */
  lemma HashIgnoresPublicData(w: WorldState, w': WorldState, digest: Digest, client: string, student: string)
    requires w.privateData == w'.privateData
    ensures StudentHash(w, digest, client, student) == StudentHash(w', digest, client, student)
  {
  }

  // ---------------------------------------------------------------- granting then borrowing

  /** After a grant, a borrow of the free book by (org, student) succeeds exactly when the org was
      entitled before or is the grantee, and the student's hash was on the reader list before or is
      the granted hash. In particular the granted pair itself may now borrow the book. */
  lemma BorrowAfterGrant(w: WorldState, digest: Digest, owner: string, id: string, client: string, student: string,
                         org: string, other: string)
    requires GrantBook(w, digest, owner, id, client, student).outcome == Done
    ensures var g := GrantBook(w, digest, owner, id, client, student).after;
            var b := Stored(w, id);
            var h := StudentHash(w, digest, org, other);
      BorrowBook(g, digest, org, id, other).outcome.Done? <==>
        && (org in b.entitleList || org == client)
        && !b.isBorrowed
        && h.Ok?
        && (h.value in b.readerList || h.value == StudentHash(w, digest, client, student).value)
  {
    GrantBookSpec(w, digest, owner, id, client, student);
    var g := GrantBook(w, digest, owner, id, client, student).after;
    HashIgnoresPublicData(w, g, digest, org, other);
    BorrowBookSpec(g, digest, org, id, other);
  }

  lemma GrantedPairMayBorrow(w: WorldState, digest: Digest, owner: string, id: string, client: string, student: string)
    requires GrantBook(w, digest, owner, id, client, student).outcome == Done
    requires !Stored(w, id).isBorrowed
    ensures BorrowBook(GrantBook(w, digest, owner, id, client, student).after, digest, client, id, student).outcome == Done
  {
    GrantBookSpec(w, digest, owner, id, client, student);
    BorrowAfterGrant(w, digest, owner, id, client, student, client, student);
  }

  /** After a grant, the granted pair may also queue a request for the book while it is out. */
  lemma GrantedPairMayRequest(w: WorldState, digest: Digest, owner: string, id: string, client: string, student: string)
    requires GrantBook(w, digest, owner, id, client, student).outcome == Done
    requires Stored(w, id).isBorrowed
    ensures AddRequest(GrantBook(w, digest, owner, id, client, student).after, digest, client, id, student).outcome == Done
  {
    GrantBookSpec(w, digest, owner, id, client, student);
    var g := GrantBook(w, digest, owner, id, client, student).after;
    HashIgnoresPublicData(w, g, digest, client, student);
    AddRequestSpec(g, digest, client, id, student);
  }

  // ---------------------------------------------------------------- ReturnBook as written and as intended

  /** On every book the intended return and the written one pick the same holder and the same flag;
      with requests waiting the written queue ends in the intended one, behind n-1 zero requesters;
      with none they differ only in the holder, which the written one leaves in place. */
  lemma ReturnAgreesWithIntended(b: Book)
    ensures var aw, iw, n := ReturnedAsWritten(b), ReturnedIntended(b), |b.requestQueue|;
      && aw.isBorrowed == iw.isBorrowed
      && (n > 0 ==> && aw.holder == iw.holder
                    && aw.requestQueue == Blanks(n - 1) + iw.requestQueue
                    && aw.(requestQueue := iw.requestQueue) == iw)
      && (n == 0 ==> && aw.holder == b.holder
                     && iw.holder == NoRequester
                     && aw.(holder := NoRequester) == iw)
  {
  }

  /** The intended return hands the book to the head of the queue and drops exactly that request. */
  lemma IntendedReturnPopsHead(b: Book)
    requires |b.requestQueue| > 0
    ensures ReturnedIntended(b).holder == b.requestQueue[0]
    ensures [ReturnedIntended(b).holder] + ReturnedIntended(b).requestQueue == b.requestQueue
    ensures ReturnedIntended(b).isBorrowed == b.isBorrowed
  {
  }

  /** The padding strands a queue: after two returns by the holders in turn, the written code hands
      the book to the zero requester, which nobody can return, and the last request waits forever.
      The intended return hands it to that last requester. */
  lemma PaddingStrandsQueue(w: WorldState, digest: Digest, id: string, org: string, s0: string, s1: string, s2: string)
    requires id in w.publicData
    requires org != ""
    requires Stored(w, id).isBorrowed && org in Stored(w, id).entitleList && "" !in Stored(w, id).entitleList
    requires Stored(w, id).holder == BookRequester(org, s0)
    requires Stored(w, id).requestQueue == [BookRequester(org, s1), BookRequester(org, s2)]
    requires StudentHash(w, digest, org, s0).Ok? && StudentHash(w, digest, org, s1).Ok?
    ensures var r1 := ReturnBook(w, digest, org, id, s0);
            var r2 := ReturnBook(r1.after, digest, org, id, s1);
      && r1.outcome == Done && r2.outcome == Done
      && Stored(r2.after, id).isBorrowed
      && Stored(r2.after, id).holder == NoRequester
      && Stored(r2.after, id).requestQueue == [NoRequester, BookRequester(org, s2)]
      && (forall caller, student :: ReturnBook(r2.after, digest, caller, id, student).outcome.Failed?)
    ensures var r1 := ReturnBookIntended(w, digest, org, id, s0);
            var r2 := ReturnBookIntended(r1.after, digest, org, id, s1);
      && r1.outcome == Done && r2.outcome == Done
      && Stored(r2.after, id).holder == BookRequester(org, s2)
      && Stored(r2.after, id).requestQueue == []
  {
    var r1 := ReturnBook(w, digest, org, id, s0);
    ReturnBookSpec(w, digest, org, id, s0);
    assert Stored(r1.after, id).requestQueue == [NoRequester, BookRequester(org, s2)];
    HashIgnoresPublicData(w, r1.after, digest, org, s1);
    ReturnBookSpec(r1.after, digest, org, id, s1);
    var r2 := ReturnBook(r1.after, digest, org, id, s1);
    assert Stored(r2.after, id).requestQueue == Blanks(1) + [BookRequester(org, s2)];
    forall caller, student
      ensures ReturnBook(r2.after, digest, caller, id, student).outcome.Failed?
    {
      ReturnBookSpec(r2.after, digest, caller, id, student);
    }
    var i1 := ReturnBookIntended(w, digest, org, id, s0);
    HashIgnoresPublicData(w, i1.after, digest, org, s1);
  }

  // ---------------------------------------------------------------- every transaction

  datatype Call =
    | Register(caller: string, name: string, phone: string, email: string)
    | Create(caller: string, title: string, author: string, isbn: string)
    | Request(caller: string, id: string, student: string)
    | Return(caller: string, id: string, student: string)
    | Borrow(caller: string, id: string, student: string)
    | Grant(caller: string, id: string, client: string, student: string)
    | Update(id: string, title: string, author: string, isbn: string, owner: string)
    | Delete(id: string)
    | Transfer(caller: string, id: string, newOwner: string)

  function Apply(w: WorldState, digest: Digest, c: Call): Step
  {
    match c
    case Register(caller, name, phone, email) => RegStudent(w, caller, name, phone, email)
    case Create(caller, title, author, isbn) => Step(Done, CreateBook(w, caller, title, author, isbn))
    case Request(caller, id, student) => AddRequest(w, digest, caller, id, student)
    case Return(caller, id, student) => ReturnBook(w, digest, caller, id, student)
    case Borrow(caller, id, student) => BorrowBook(w, digest, caller, id, student)
    case Grant(caller, id, client, student) => GrantBook(w, digest, caller, id, client, student)
    case Update(id, title, author, isbn, owner) => UpdateBook(w, id, title, author, isbn, owner)
    case Delete(id) => DeleteBook(w, id)
    case Transfer(caller, id, newOwner) => TransferBook(w, caller, id, newOwner)
  }

  /** A failed transaction writes nothing. */
  lemma FailureChangesNothing(w: WorldState, digest: Digest, c: Call)
    ensures Apply(w, digest, c).outcome.Failed? ==> Apply(w, digest, c).after == w
  {
  }

  /** Every transaction on an existing book but UpdateBook and DeleteBook goes through GetBook, so
      it succeeds only for a caller on the entitle list. */
  lemma GuardedCallsNeedVisibility(w: WorldState, digest: Digest, c: Call)
    requires c.Request? || c.Return? || c.Borrow? || c.Grant? || c.Transfer?
    ensures Apply(w, digest, c).outcome.Done? ==> Visible(w, c.caller, c.id)
  {
  }

  /** A free book has no waiting request. */
  predicate Idle(b: Book)
  {
    !b.isBorrowed ==> b.requestQueue == []
  }

  /** No book is free while requests wait for it. */
  predicate IdleWhenFree(w: WorldState)
  {
    forall k :: k in w.publicData ==> Idle(Stored(w, k))
  }

  lemma StoreKeepsIdle(w: WorldState, k: string, v: PublicValue)
    requires IdleWhenFree(w) && Idle(BookOf(v))
    ensures IdleWhenFree(w.(publicData := w.publicData[k := v]))
  {
  }

  /** Every transaction keeps IdleWhenFree: a request is queued only on a borrowed book, and a return
      frees the book only once its queue is empty. */
  lemma IdleWhenFreePreserved(w: WorldState, digest: Digest, c: Call)
    requires IdleWhenFree(w)
    ensures IdleWhenFree(Apply(w, digest, c).after)
  {
    if Apply(w, digest, c).outcome.Done? {
      match c
      case Register(caller, name, phone, email) =>
        assert Apply(w, digest, c).after.publicData == w.publicData;
      case Create(caller, title, author, isbn) =>
        var n := BookCount(w.publicData) + 1;
        StoreKeepsIdle(w, BookConfigKey, BookConfigValue(n));
        var w1 := w.(publicData := w.publicData[BookConfigKey := BookConfigValue(n)]);
        StoreKeepsIdle(w1, BookKey(n), BookValue(NewBook(BookKey(n), title, author, isbn, caller)));
      case Request(caller, id, student) =>
        StoreKeepsIdle(w, id, BookValue(Enqueued(Stored(w, id), BookRequester(caller, student))));
      case Return(caller, id, student) =>
        StoreKeepsIdle(w, id, BookValue(ReturnedAsWritten(Stored(w, id))));
      case Borrow(caller, id, student) =>
        StoreKeepsIdle(w, id, BookValue(Borrowed(Stored(w, id), BookRequester(caller, student))));
      case Grant(caller, id, client, student) =>
        StoreKeepsIdle(w, id, BookValue(Granted(Stored(w, id), client, StudentHash(w, digest, client, student).value)));
      case Update(id, title, author, isbn, owner) =>
        StoreKeepsIdle(w, id, BookValue(Overwritten(id, title, author, isbn, owner)));
      case Delete(id) =>
      case Transfer(caller, id, newOwner) =>
        StoreKeepsIdle(w, id, BookValue(Transferred(Stored(w, id), newOwner)));
    }
  }

  /** A free book has neither a holder nor waiting requests: what the zero requester in the holder of
      a new book and the return path that clears IsBorrowed are meant to keep. */
  predicate Released(b: Book)
  {
    !b.isBorrowed ==> b.requestQueue == [] && b.holder == NoRequester
  }

  predicate ReleasedWhenFree(w: WorldState)
  {
    forall k :: k in w.publicData ==> Released(Stored(w, k))
  }

  lemma StoreKeepsReleased(w: WorldState, k: string, v: PublicValue)
    requires ReleasedWhenFree(w) && Released(BookOf(v))
    ensures ReleasedWhenFree(w.(publicData := w.publicData[k := v]))
  {
  }

  /** Every transaction but ReturnBook keeps ReleasedWhenFree. */
  lemma ReleasedWhenFreeKeptByOthers(w: WorldState, digest: Digest, c: Call)
    requires ReleasedWhenFree(w)
    requires !c.Return?
    ensures ReleasedWhenFree(Apply(w, digest, c).after)
  {
    if Apply(w, digest, c).outcome.Done? {
      match c
      case Register(caller, name, phone, email) =>
        assert Apply(w, digest, c).after.publicData == w.publicData;
      case Create(caller, title, author, isbn) =>
        var n := BookCount(w.publicData) + 1;
        StoreKeepsReleased(w, BookConfigKey, BookConfigValue(n));
        var w1 := w.(publicData := w.publicData[BookConfigKey := BookConfigValue(n)]);
        StoreKeepsReleased(w1, BookKey(n), BookValue(NewBook(BookKey(n), title, author, isbn, caller)));
      case Request(caller, id, student) =>
        StoreKeepsReleased(w, id, BookValue(Enqueued(Stored(w, id), BookRequester(caller, student))));
      case Borrow(caller, id, student) =>
        StoreKeepsReleased(w, id, BookValue(Borrowed(Stored(w, id), BookRequester(caller, student))));
      case Grant(caller, id, client, student) =>
        StoreKeepsReleased(w, id, BookValue(Granted(Stored(w, id), client, StudentHash(w, digest, client, student).value)));
      case Update(id, title, author, isbn, owner) =>
        StoreKeepsReleased(w, id, BookValue(Overwritten(id, title, author, isbn, owner)));
      case Delete(id) =>
      case Transfer(caller, id, newOwner) =>
        StoreKeepsReleased(w, id, BookValue(Transferred(Stored(w, id), newOwner)));
    }
  }

  /** The written ReturnBook breaks it: returning a book nobody waits for leaves its holder in place. */
  lemma ReturnKeepsHolder(w: WorldState, digest: Digest, caller: string, id: string, student: string)
    requires ReleasedWhenFree(w)
    requires Visible(w, caller, id) && Stored(w, id).isBorrowed
    requires Stored(w, id).holder == BookRequester(caller, student) && Stored(w, id).requestQueue == []
    requires StudentHash(w, digest, caller, student).Ok?
    requires caller != ""
    ensures var r := ReturnBook(w, digest, caller, id, student);
      && r.outcome == Done
      && !Stored(r.after, id).isBorrowed
      && Stored(r.after, id).holder == BookRequester(caller, student)
      && !ReleasedWhenFree(r.after)
  {
    var r := ReturnBook(w, digest, caller, id, student);
    assert id in r.after.publicData && !Stored(r.after, id).isBorrowed;
  }

  /** The corrected ReturnBook keeps ReleasedWhenFree. */
  lemma IntendedReturnKeepsReleased(w: WorldState, digest: Digest, caller: string, id: string, student: string)
    requires ReleasedWhenFree(w)
    ensures ReleasedWhenFree(ReturnBookIntended(w, digest, caller, id, student).after)
  {
    if ReturnBookIntended(w, digest, caller, id, student).outcome.Done? {
      StoreKeepsReleased(w, id, BookValue(ReturnedIntended(Stored(w, id))));
    }
  }

  // ---------------------------------------------------------------- the book counter

  /** UpdateBook and DeleteBook accept any existing key, "BookConfig" included. Deleting the counter,
      or overwriting it with a book record, resets the count, and the next CreateBook mints book_1
      again, replacing the first book and its owner. */
  lemma CounterResetByDelete(alice: string, bob: string, t1: string, a1: string, i1: string, t2: string, a2: string, i2: string)
    requires alice != bob
    ensures var w1 := CreateBook(WorldState(map[], map[]), alice, t1, a1, i1);
            var d := DeleteBook(w1, BookConfigKey);
            var w3 := CreateBook(d.after, bob, t2, a2, i2);
      && "book_1" in w1.publicData && Stored(w1, "book_1").owner == alice
      && d.outcome == Done
      && "book_1" in w3.publicData && Stored(w3, "book_1").owner == bob
  {
    assert BookKey(1) == "book_1";
    BookKeyNotConfig(1);
  }

  lemma CounterResetByUpdate(alice: string, bob: string, t1: string, a1: string, i1: string, t2: string, a2: string, i2: string)
    requires alice != bob
    ensures var w1 := CreateBook(WorldState(map[], map[]), alice, t1, a1, i1);
            var u := UpdateBook(w1, BookConfigKey, "", "", "", "");
            var w3 := CreateBook(u.after, bob, t2, a2, i2);
      && "book_1" in w1.publicData && Stored(w1, "book_1").owner == alice
      && u.outcome == Done
      && "book_1" in w3.publicData && Stored(w3, "book_1").owner == bob
  {
    assert BookKey(1) == "book_1";
    BookKeyNotConfig(1);
  }

  /** Every transaction, with UpdateBook and DeleteBook refusing the counter record. */
  function ApplyIntended(w: WorldState, digest: Digest, c: Call): Step
  {
    match c
    case Update(id, title, author, isbn, owner) => UpdateBookIntended(w, id, title, author, isbn, owner)
    case Delete(id) => DeleteBookIntended(w, id)
    case _ => Apply(w, digest, c)
  }

  /** The counter covers every minted key: "BookConfig" holds a counter record whenever present,
      and no book_<n> is stored for an n above the count. */
  ghost predicate CountCovers(w: WorldState)
  {
    && (BookConfigKey in w.publicData ==> w.publicData[BookConfigKey].BookConfigValue?)
    && (forall n: nat :: BookKey(n) in w.publicData ==> n <= BookCount(w.publicData))
  }

  /** While the counter covers the keys, CreateBook mints a key that holds no book yet. */
  lemma CreateMintsFreshKey(w: WorldState)
    requires CountCovers(w)
    ensures BookKey(BookCount(w.publicData) + 1) !in w.publicData
  {
  }

  lemma EmptyCountCovers()
    ensures CountCovers(WorldState(map[], map[]))
  {
  }

  /** The counter record reads as a book with an empty entitle list, so nobody can see it. */
  lemma CounterNotVisible(w: WorldState, caller: string)
    requires CountCovers(w)
    ensures !Visible(w, caller, BookConfigKey)
  {
  }

  lemma PutKeepsCountCovers(w: WorldState, id: string, b: Book)
    requires CountCovers(w) && id in w.publicData && id != BookConfigKey
    ensures CountCovers(Put(w, id, b))
  {
    assert Put(w, id, b).publicData.Keys == w.publicData.Keys;
    assert BookCount(Put(w, id, b).publicData) == BookCount(w.publicData);
  }

  lemma CreateKeepsCountCovers(w: WorldState, caller: string, title: string, author: string, isbn: string)
    requires CountCovers(w)
    ensures CountCovers(CreateBook(w, caller, title, author, isbn))
  {
    var n := BookCount(w.publicData) + 1;
    var w' := CreateBook(w, caller, title, author, isbn);
    CreateBookSpec(w, caller, title, author, isbn);
    forall m: nat | BookKey(m) in w'.publicData
      ensures m <= BookCount(w'.publicData)
    {
      if BookKey(m) == BookKey(n) {
        NumberedInjective("book_", m, n);
      } else {
        BookKeyNotConfig(m);
        assert BookKey(m) in w.publicData;
      }
    }
  }

  /** With UpdateBook and DeleteBook refusing the counter record, every transaction keeps CountCovers,
      so from the empty ledger on no CreateBook replaces an existing book. */
  lemma CountCoversKept(w: WorldState, digest: Digest, c: Call)
    requires CountCovers(w)
    ensures CountCovers(ApplyIntended(w, digest, c).after)
  {
    var r := ApplyIntended(w, digest, c);
    if r.outcome.Done? {
      match c
      case Register(caller, name, phone, email) =>
        assert r.after.publicData == w.publicData;
      case Create(caller, title, author, isbn) =>
        CreateKeepsCountCovers(w, caller, title, author, isbn);
      case Request(caller, id, student) =>
        CounterNotVisible(w, caller);
        PutKeepsCountCovers(w, id, Enqueued(Stored(w, id), BookRequester(caller, student)));
      case Return(caller, id, student) =>
        CounterNotVisible(w, caller);
        PutKeepsCountCovers(w, id, ReturnedAsWritten(Stored(w, id)));
      case Borrow(caller, id, student) =>
        CounterNotVisible(w, caller);
        PutKeepsCountCovers(w, id, Borrowed(Stored(w, id), BookRequester(caller, student)));
      case Grant(caller, id, client, student) =>
        CounterNotVisible(w, caller);
        PutKeepsCountCovers(w, id, Granted(Stored(w, id), client, StudentHash(w, digest, client, student).value));
      case Update(id, title, author, isbn, owner) =>
        PutKeepsCountCovers(w, id, Overwritten(id, title, author, isbn, owner));
      case Delete(id) =>
        assert BookCount(r.after.publicData) == BookCount(w.publicData);
      case Transfer(caller, id, newOwner) =>
        CounterNotVisible(w, caller);
        PutKeepsCountCovers(w, id, Transferred(Stored(w, id), newOwner));
    }
  }
}
