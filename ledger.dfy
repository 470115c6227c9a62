/** The chaincode as it runs against the ledger: one method per transaction, each reading the
    records it needs, checking its guards and writing the updated records back. Each method is
    proved to do what the reference semantics in module Contract says. */
module Chaincode {
  import opened BookTypes
  import opened Text
  import opened Identity
  import opened Contract

  /** The `for _, v := range list { if v == x ... }` search the chaincode repeats. */
  method Includes(list: seq<string>, x: string) returns (found: bool)
    ensures found <==> x in list
  {
    var i := 0;
    while i < |list|
      invariant 0 <= i <= |list|
      invariant x !in list[..i]
    {
      if list[i] == x {
        return true;
      }
      i := i + 1;
    }
    return false;
  }

  /** The nested search of AddRequest and BorrowBook: for every entry of the entitle list equal to
      the caller, look for the student's hash on the reader list. */
  method EntitledReader(book: Book, caller: string, hash: string) returns (ok: bool)
    ensures ok <==> caller in book.entitleList && hash in book.readerList
  {
    var i := 0;
    while i < |book.entitleList|
      invariant 0 <= i <= |book.entitleList|
      invariant caller in book.entitleList[..i] ==> hash !in book.readerList
    {
      if book.entitleList[i] == caller {
        var vetted := Includes(book.readerList, hash);
        if vetted {
          return true;
        }
      }
      i := i + 1;
    }
    return false;
  }

  /** The world state seen by the chaincode: the public namespace and the private collections,
      with the collections' content hash. */
  class Ledger {
    var publicData: map<string, PublicValue>
    var privateData: map<string, map<string, PrivateValue>>
    const digest: Digest

    constructor (digest: Digest)
      ensures State() == WorldState(map[], map[])
      ensures this.digest == digest
    {
      publicData := map[];
      privateData := map[];
      this.digest := digest;
    }

    function State(): WorldState
      reads this
    {
      WorldState(publicData, privateData)
    }

    method BookExists(id: string) returns (found: bool)
      ensures found <==> Contract.BookExists(State(), id)
    {
      found := id in publicData;
    }

    method GetBook(caller: string, id: string) returns (r: Result<Book>)
      ensures r == Contract.GetBook(State(), caller, id)
    {
      if id !in publicData {
        return Err(BookNotFound(id));
      }
      var book := BookOf(publicData[id]);
      var entitled := Includes(book.entitleList, caller);
      if entitled {
        return Ok(book);
      }
      return Err(NotEntitled(id));
    }

    method GetStudentHash(client: string, student: string) returns (r: Result<string>)
      ensures r == StudentHash(State(), digest, client, student)
    {
      var coll := GetPrivateCollection(client);
      if coll.Err? {
        return Err(coll.error);
      }
      var collection := if coll.value in privateData then privateData[coll.value] else map[];
      if student !in collection {
        return Err(StudentNotFound(student));
      }
      return Ok(digest(collection[student]));
    }

    method RegStudent(caller: string, name: string, phone: string, email: string) returns (outcome: Outcome)
      modifies this
      ensures Step(outcome, State()) == Contract.RegStudent(old(State()), caller, name, phone, email)
    {
      var tokens := Split(caller, '@');
      var domain := "";
      if |tokens| >= 2 {
        domain := tokens[1];
      }
      var coll := GetPrivateCollection(caller);
      if coll.Err? {
        return Failed(coll.error);
      }
      var collection := if coll.value in privateData then privateData[coll.value] else map[];
      var count := StudentCount(collection) + 1;
      privateData := privateData[coll.value := collection[StudentConfigKey := StudentConfigValue(count)]];
      var id := "student_" + NatToString(count) + "@" + domain;
      assert domain == Domain(caller) && id == StudentKey(count, Domain(caller));
      var student := Student(caller, id, name, phone, email);
      privateData := privateData[coll.value := privateData[coll.value][id := StudentValue(student)]];
      assert privateData[coll.value] == collection[StudentConfigKey := StudentConfigValue(count)][id := StudentValue(student)];
      return Done;
    }

    method CreateBook(caller: string, title: string, author: string, isbn: string)
      modifies this
      ensures State() == Contract.CreateBook(old(State()), caller, title, author, isbn)
    {
      var count := BookCount(publicData) + 1;
      publicData := publicData[BookConfigKey := BookConfigValue(count)];
      var id := "book_" + NatToString(count);
      var book := Book(id, title, author, isbn, caller, NoRequester, false, [], [], []);
      book := book.(entitleList := book.entitleList + [caller]);
      assert book == NewBook(id, title, author, isbn, caller);
      publicData := publicData[id := BookValue(book)];
    }

    method AddRequest(caller: string, id: string, student: string) returns (outcome: Outcome)
      modifies this
      ensures Step(outcome, State()) == Contract.AddRequest(old(State()), digest, caller, id, student)
    {
      var found := BookExists(id);
      if !found {
        return Failed(BookNotFound(id));
      }
      var got := GetBook(caller, id);
      if got.Err? {
        return Failed(got.error);
      }
      var book := got.value;
      if !book.isBorrowed {
        return Failed(NotBorrowed(id));
      }
      var hash := GetStudentHash(caller, student);
      if hash.Err? {
        return Failed(hash.error);
      }
      var ok := EntitledReader(book, caller, hash.value);
      if !ok {
        return Failed(NotEntitled(id));
      }
      book := book.(requestQueue := book.requestQueue + [BookRequester(caller, student)]);
      publicData := publicData[id := BookValue(book)];
      return Done;
    }

    method ReturnBook(caller: string, id: string, student: string) returns (outcome: Outcome)
      modifies this
      ensures Step(outcome, State()) == Contract.ReturnBook(old(State()), digest, caller, id, student)
    {
      var found := BookExists(id);
      if !found {
        return Failed(BookNotFound(id));
      }
      var got := GetBook(caller, id);
      if got.Err? {
        return Failed(got.error);
      }
      var book := got.value;
      if !book.isBorrowed {
        return Failed(NotBorrowed(id));
      }
      if caller != book.holder.org {
        return Failed(NotHolder(id));
      }
      if student != book.holder.studentId {
        return Failed(NotHolder(id));
      }
      var hash := GetStudentHash(caller, student);
      if hash.Err? {
        return Failed(hash.error);
      }
      var queue := book.requestQueue;
      var n := |queue|;
      if n > 0 {
        var next := Blanks(n - 1);
        for i := 0 to n
          invariant i == 0 ==> book == got.value && next == Blanks(n - 1)
          invariant i > 0 ==> book == got.value.(holder := queue[0]) && next == Blanks(n - 1) + queue[1..i]
        {
          if i == 0 {
            book := book.(holder := queue[i]);
          } else {
            next := next + [queue[i]];
          }
        }
        assert queue[1..n] == queue[1..];
        book := book.(requestQueue := next);
        assert book == ReturnedAsWritten(got.value);
      } else {
        book := book.(isBorrowed := false);
      }
      publicData := publicData[id := BookValue(book)];
      return Done;
    }

    method BorrowBook(caller: string, id: string, student: string) returns (outcome: Outcome)
      modifies this
      ensures Step(outcome, State()) == Contract.BorrowBook(old(State()), digest, caller, id, student)
    {
      var found := BookExists(id);
      if !found {
        return Failed(BookNotFound(id));
      }
      var got := GetBook(caller, id);
      if got.Err? {
        return Failed(got.error);
      }
      var book := got.value;
      if book.isBorrowed {
        return Failed(AlreadyBorrowed(id));
      }
      var hash := GetStudentHash(caller, student);
      if hash.Err? {
        return Failed(hash.error);
      }
      var ok := EntitledReader(book, caller, hash.value);
      if !ok {
        return Failed(NotEntitled(id));
      }
      book := book.(holder := BookRequester(caller, student), isBorrowed := true);
      publicData := publicData[id := BookValue(book)];
      return Done;
    }

    method GrantBook(caller: string, id: string, client: string, student: string) returns (outcome: Outcome)
      modifies this
      ensures Step(outcome, State()) == Contract.GrantBook(old(State()), digest, caller, id, client, student)
    {
      var found := BookExists(id);
      if !found {
        return Failed(BookNotFound(id));
      }
      var got := GetBook(caller, id);
      if got.Err? {
        return Failed(got.error);
      }
      var book := got.value;
      if book.owner != caller {
        return Failed(NotOwner(id));
      }
      book := book.(entitleList := book.entitleList + [client]);
      var hash := GetStudentHash(client, student);
      if hash.Err? {
        return Failed(hash.error);
      }
      book := book.(readerList := book.readerList + [hash.value]);
      publicData := publicData[id := BookValue(book)];
      return Done;
    }

    method UpdateBook(id: string, title: string, author: string, isbn: string, owner: string) returns (outcome: Outcome)
      modifies this
      ensures Step(outcome, State()) == Contract.UpdateBook(old(State()), id, title, author, isbn, owner)
    {
      var found := BookExists(id);
      if !found {
        return Failed(BookNotFound(id));
      }
      var book := Book(id, title, author, isbn, owner, NoRequester, false, [], [], []);
      publicData := publicData[id := BookValue(book)];
      return Done;
    }

    method DeleteBook(id: string) returns (outcome: Outcome)
      modifies this
      ensures Step(outcome, State()) == Contract.DeleteBook(old(State()), id)
    {
      var found := BookExists(id);
      if !found {
        return Failed(BookNotFound(id));
      }
      publicData := publicData - {id};
      return Done;
    }

    method TransferBook(caller: string, id: string, newOwner: string) returns (outcome: Outcome)
      modifies this
      ensures Step(outcome, State()) == Contract.TransferBook(old(State()), caller, id, newOwner)
    {
      var got := GetBook(caller, id);
      if got.Err? {
        return Failed(got.error);
      }
      var book := got.value.(owner := newOwner);
      publicData := publicData[id := BookValue(book)];
      return Done;
    }

    /** GetAllBooks: a range scan over the whole namespace. */
    method GetAllBooks(caller: string) returns (books: seq<Book>)
      ensures books == Contract.GetAllBooks(State(), caller)
    {
      books := ScanBooks(State(), caller);
    }

    /** GetAllStudents: a range scan over the caller's own collection. */
    method GetAllStudents(caller: string) returns (r: Result<seq<Student>>)
      ensures r == Contract.GetAllStudents(State(), caller)
    {
      var coll := GetPrivateCollection(caller);
      if coll.Err? {
        return Err(coll.error);
      }
      var collection := if coll.value in privateData then privateData[coll.value] else map[];
      var students := ScanStudents(collection, caller);
      return Ok(students);
    }
  }

  /** The scan loop of GetAllBooks: every record whose key contains "book_" and whose entitle list
      holds the caller. */
  method ScanBooks(w: WorldState, caller: string) returns (books: seq<Book>)
    ensures books == Contract.GetAllBooks(w, caller)
  {
    var scan := SortedKeys(w.publicData.Keys);
    books := [];
    for i := 0 to |scan|
      invariant books == BooksAt(w, BookKeysIn(w, caller, scan[..i]))
    {
      var key := scan[i];
      BookKeysStep(w, caller, scan, i);
      if Contains(key, "book_") {
        var book := BookOf(w.publicData[key]);
        var entitled := Includes(book.entitleList, caller);
        if entitled {
          BooksAtSnoc(w, BookKeysIn(w, caller, scan[..i]), key);
          books := books + [book];
        }
      }
    }
    assert scan[..|scan|] == scan;
  }

  /** The scan loop of GetAllStudents over one collection: every record whose key contains
      "student_" and whose organisation is the caller. */
  method ScanStudents(collection: map<string, PrivateValue>, caller: string) returns (students: seq<Student>)
    ensures students == StudentListing(collection, caller)
  {
    var scan := SortedKeys(collection.Keys);
    students := [];
    for i := 0 to |scan|
      invariant students == StudentsAt(collection, StudentKeysIn(collection, caller, scan[..i]))
    {
      var key := scan[i];
      StudentKeysStep(collection, caller, scan, i);
      if Contains(key, "student_") {
        var student := StudentOf(collection[key]);
        if student.org == caller {
          StudentsAtSnoc(collection, StudentKeysIn(collection, caller, scan[..i]), key);
          students := students + [student];
        }
      }
    }
    assert scan[..|scan|] == scan;
  }
}
