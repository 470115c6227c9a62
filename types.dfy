/** Records of the sharebook chaincode and the outcomes of its transactions. */
module BookTypes {

  /** An (organisation, student) pair queued for a book or holding it. */
  datatype BookRequester = BookRequester(org: string, studentId: string)

  /** The zero requester: what Go's zero value of BookRequester holds. */
  const NoRequester := BookRequester("", "")

  datatype Book = Book(
    id: string,
    title: string,
    author: string,
    isbn: string,
    owner: string,
    holder: BookRequester,
    isBorrowed: bool,
    requestQueue: seq<BookRequester>,
    entitleList: seq<string>,
    readerList: seq<string>)

  /** The zero Book: what decoding a record without any Book field gives. */
  const BlankBook := Book("", "", "", "", "", NoRequester, false, [], [], [])

  datatype Student = Student(org: string, studentId: string, name: string, phone: string, email: string)

  const BlankStudent := Student("", "", "", "", "")

  /** A value stored in the public namespace: a book, or the book counter kept under "BookConfig". */
  datatype PublicValue = BookValue(book: Book) | BookConfigValue(bookCount: nat)

  /** A value stored in an organisation's private collection: a student, or the counter under "StudentConfig". */
  datatype PrivateValue = StudentValue(student: Student) | StudentConfigValue(studentCount: nat)

  /** The collection's content hash of a stored private value, already hex-encoded. */
  type Digest = PrivateValue -> string

  datatype Error =
    | BookNotFound(id: string)
    | NotEntitled(id: string)
    | NotBorrowed(id: string)
    | AlreadyBorrowed(id: string)
    | NotHolder(id: string)
    | NotOwner(id: string)
    | OrgUnparsable(caller: string)
    | StudentNotFound(student: string)

  datatype Result<T> = Ok(value: T) | Err(error: Error)

  /** What a transaction that returns only `error` in Go reports. */
  datatype Outcome = Done | Failed(error: Error)

  /** Reading a public value into a Book: a counter record holds no Book field, so it reads as the zero Book. */
  function BookOf(v: PublicValue): Book
  {
    match v
    case BookValue(b) => b
    case BookConfigValue(_) => BlankBook
  }

  /** The keys under which the two counters live, beside the books and the students. */
  const BookConfigKey := "BookConfig"
  const StudentConfigKey := "StudentConfig"

  /** Reading "BookConfig" into a counter: an absent key, or a record without a Count field, reads as 0. */
  function BookCount(m: map<string, PublicValue>): nat
  {
    if BookConfigKey !in m then 0
    else match m[BookConfigKey]
      case BookConfigValue(c) => c
      case BookValue(_) => 0
  }

  function StudentOf(v: PrivateValue): Student
  {
    match v
    case StudentValue(s) => s
    case StudentConfigValue(_) => BlankStudent
  }

  /** Reading "StudentConfig" of one collection, defaulting to 0 as BookCount does. */
  function StudentCount(m: map<string, PrivateValue>): nat
  {
    if StudentConfigKey !in m then 0
    else match m[StudentConfigKey]
      case StudentConfigValue(c) => c
      case StudentValue(_) => 0
  }
}
