/**
 * The books service of books/server/server.go: an in-memory table of book
 * records with add, update, list and first-match lookups, and two handlers
 * that patch a schema-less document by fixed key/value rules and encode it
 * again with `MaptoStruct`.
 */
module Server {
  import opened Wrappers
  import opened Converter

  // ---------------------------------------------------------------------------
  // Records, replies, errors
  // ---------------------------------------------------------------------------

  /** A stored book: the `AddRequest` message the service keeps. */
  datatype Book = Book(id: int, title: string, author: string)

  /** The shape shared by `AddResponse`, `UpdateResponse`, `IDResponse`, `AuthorResponse` and `TitleResponse`. */
  datatype Reply = Reply(id: int, title: string, author: string)

  /** A reply message with every field at its zero value. */
  const EmptyReply: Reply := Reply(0, "", "")

  /** The reply that echoes a record. */
  function ReplyOf(b: Book): (r: Reply)
  {
    Reply(b.id, b.title, b.author)
  }

  /** The errors the store reports, one per message text. */
  datatype StoreError = IdAlreadyExists | IdDoesNotExist | AuthorDoesNotExist | TitleDoesNotExist

  /** What a lookup compares against. */
  datatype Query = ById(id: int) | ByAuthor(author: string) | ByTitle(title: string)

  predicate Matches(b: Book, q: Query)
  {
    match q
    case ById(id) => b.id == id
    case ByAuthor(author) => b.author == author
    case ByTitle(title) => b.title == title
  }

  /** The position of the first record, in insertion order, that matches `q`. */
  function FirstMatch(books: seq<Book>, q: Query): (r: Option<nat>)
    ensures r.Some? ==> r.value < |books| && Matches(books[r.value], q)
    ensures r.Some? ==> forall j :: 0 <= j < r.value ==> !Matches(books[j], q)
    ensures r.None? <==> forall j :: 0 <= j < |books| ==> !Matches(books[j], q)
  {
    if books == [] then None
    else if Matches(books[0], q) then Some(0)
    else
      match FirstMatch(books[1..], q)
      case None => None
      case Some(i) => Some(i + 1)
  }

  /** The error a lookup reports when no record matches. */
  function NotFound(q: Query): (e: StoreError)
  {
    match q
    case ById(_) => IdDoesNotExist
    case ByAuthor(_) => AuthorDoesNotExist
    case ByTitle(_) => TitleDoesNotExist
  }

  ghost predicate DistinctIds(books: seq<Book>)
  {
    forall i, j :: 0 <= i < j < |books| ==> books[i].id != books[j].id
  }

  /** Appending a record whose ID is not yet stored keeps the IDs distinct. */
  lemma AddKeepsIdsDistinct(books: seq<Book>, request: Book)
    requires DistinctIds(books)
    requires FirstMatch(books, ById(request.id)).None?
    ensures DistinctIds(books + [request])
  {
  }

  /** Overwriting a record with one of the same ID keeps the IDs distinct. */
  lemma UpdateKeepsIdsDistinct(books: seq<Book>, i: nat, request: Book)
    requires DistinctIds(books)
    requires i < |books| && books[i].id == request.id
    ensures DistinctIds(books[i := request])
  {
  }

  /** With distinct IDs, the first record with an ID is the only one. */
  lemma FirstIdMatchIsUnique(books: seq<Book>, id: int, k: nat)
    requires DistinctIds(books)
    requires k < |books| && books[k].id == id
    ensures FirstMatch(books, ById(id)) == Some(k)
  {
  }

  // ---------------------------------------------------------------------------
  // The payload patch rules
  // ---------------------------------------------------------------------------

  /** The condition of the `Arbitrary` rule: key "brand" holds the string "Subaru". */
  predicate BrandIsSubaru(m: map<string, Native>)
  {
    "brand" in m && m["brand"] == NString("Subaru")
  }

  /**
   * The `Arbitrary` rule: when the brand is Subaru, set "waiver" to true and
   * "country" to "america", overwriting whatever they held.
   */
  function PatchBrand(m: map<string, Native>): (r: map<string, Native>)
    ensures BrandIsSubaru(m) ==> r.Keys == m.Keys + {"waiver", "country"}
    ensures BrandIsSubaru(m) ==> r["waiver"] == NBool(true) && r["country"] == NString("america")
    ensures m.Keys <= r.Keys
    ensures forall k :: k in m && k != "waiver" && k != "country" ==> r[k] == m[k]
    ensures !BrandIsSubaru(m) ==> r == m
  {
    if BrandIsSubaru(m) then m["waiver" := NBool(true)]["country" := NString("america")] else m
  }

  /** The condition of the `DataArbitrary` rule: key "ArbitraryData" holds a nested map. */
  predicate HasNestedData(m: map<string, Native>)
  {
    "ArbitraryData" in m && m["ArbitraryData"].NMap?
  }

  /**
   * The `DataArbitrary` rule: when "ArbitraryData" holds a nested map, set
   * "familySharing" to false and "country" to "Africa" inside it.
   */
  function PatchNested(m: map<string, Native>): (r: map<string, Native>)
    ensures r.Keys == m.Keys
    ensures forall k :: k in m && k != "ArbitraryData" ==> r[k] == m[k]
    ensures HasNestedData(m) ==>
      && r["ArbitraryData"].NMap?
      && r["ArbitraryData"].entries.Keys == m["ArbitraryData"].entries.Keys + {"familySharing", "country"}
      && r["ArbitraryData"].entries["familySharing"] == NBool(false)
      && r["ArbitraryData"].entries["country"] == NString("Africa")
      && forall k :: k in m["ArbitraryData"].entries && k != "familySharing" && k != "country" ==>
           r["ArbitraryData"].entries[k] == m["ArbitraryData"].entries[k]
    ensures !HasNestedData(m) ==> r == m
  {
    if HasNestedData(m) then
      m["ArbitraryData" := NMap(m["ArbitraryData"].entries["familySharing" := NBool(false)]["country" := NString("Africa")])]
    else m
  }

  /** A handler's response document: the encoding, or nil when the encoding failed. */
  function Respond(encoded: Result<Fields, ConvError>): (doc: Option<Fields>)
    ensures doc.Some? <==> encoded.Success?
    ensures doc.Some? ==> doc.value == encoded.value
  {
    match encoded
    case Success(fields) => Some(fields)
    case Failure(_) => None
  }

  /** Applying the `Arbitrary` rule twice is applying it once. */
  lemma PatchBrandIdempotent(m: map<string, Native>)
    ensures PatchBrand(PatchBrand(m)) == PatchBrand(m)
  {
  }

  /** Applying the `DataArbitrary` rule twice is applying it once. */
  lemma PatchNestedIdempotent(m: map<string, Native>)
    ensures PatchNested(PatchNested(m)) == PatchNested(m)
  {
    if HasNestedData(m) {
      var nested := PatchNested(m)["ArbitraryData"].entries;
      assert nested["familySharing" := NBool(false)]["country" := NString("Africa")] == nested;
    }
  }

  /** On a document of plain values, `Arbitrary` answers a document that decodes to the patched map. */
  lemma ArbitraryOnPlainData(data: map<string, Native>, num: Numerics)
    requires forall k :: k in data ==> Plain(data[k])
    ensures Respond(MaptoStruct(PatchBrand(data), num)).Some?
    ensures Value(Some(StructValue(Respond(MaptoStruct(PatchBrand(data), num)).value))) == Success(NMap(PatchBrand(data)))
  {
    var patched := PatchBrand(data);
    assert forall k :: k in patched ==> Plain(patched[k]);
    DocumentRoundTrip(patched, num);
  }

  /** On a document of plain values, `DataArbitrary` answers a document that decodes to the patched map. */
  lemma DataArbitraryOnPlainData(data: map<string, Native>, num: Numerics)
    requires forall k :: k in data ==> Plain(data[k])
    ensures Respond(MaptoStruct(PatchNested(data), num)).Some?
    ensures Value(Some(StructValue(Respond(MaptoStruct(PatchNested(data), num)).value))) == Success(NMap(PatchNested(data)))
  {
    var patched := PatchNested(data);
    if HasNestedData(data) {
      var nested := patched["ArbitraryData"].entries;
      assert forall k :: k in nested ==> Plain(nested[k]);
      assert Plain(patched["ArbitraryData"]);
    }
    assert forall k :: k in patched ==> Plain(patched[k]);
    DocumentRoundTrip(patched, num);
  }

  /** A value that cannot be encoded, outside the keys the brand rule writes, makes `Arbitrary` answer a nil document. */
  lemma UnencodableValueGivesNilBrandDocument(data: map<string, Native>, key: string, num: Numerics)
    requires key in data && key != "waiver" && key != "country"
    requires Entry(data[key], num).Failure?
    ensures Respond(MaptoStruct(PatchBrand(data), num)).None?
  {
    assert PatchBrand(data)[key] == data[key];
  }

  /** A value that cannot be encoded, outside the nested map the rule patches, makes `DataArbitrary` answer a nil document. */
  lemma UnencodableValueGivesNilNestedDocument(data: map<string, Native>, key: string, num: Numerics)
    requires key in data && key != "ArbitraryData"
    requires Entry(data[key], num).Failure?
    ensures Respond(MaptoStruct(PatchNested(data), num)).None?
  {
    assert PatchNested(data)[key] == data[key];
  }

  // ---------------------------------------------------------------------------
  // The service
  // ---------------------------------------------------------------------------

  /** `BooksService`: the records, in insertion order. */
  class BooksService {
    var books: seq<Book>

    constructor ()
      ensures books == []
    {
      books := [];
    }

    /**
     * `AddBook`: refuse a duplicate ID, otherwise append the request and echo
     * it.  Both exits of the second loop echo the request.
     */
    method AddBook(request: Book) returns (reply: Reply, err: Option<StoreError>)
      modifies this
      ensures FirstMatch(old(books), ById(request.id)).Some? ==>
        reply == EmptyReply && err == Some(IdAlreadyExists) && books == old(books)
      ensures FirstMatch(old(books), ById(request.id)).None? ==>
        reply == ReplyOf(request) && err == None && books == old(books) + [request]
      ensures DistinctIds(old(books)) ==> DistinctIds(books)
    {
      for i := 0 to |books|
        invariant forall j :: 0 <= j < i ==> books[j].id != request.id
      {
        if request.id == books[i].id {
          return EmptyReply, Some(IdAlreadyExists);
        }
      }
      books := books + [request];
      for i := 0 to |books| {
        if books[i].id != request.id {
          return ReplyOf(request), None;
        }
      }
      return ReplyOf(request), None;
    }

    /**
     * `UpdateBook`: overwrite the first record with the request's ID and echo
     * the request; with no such record, answer an empty reply and no error.
     */
    method UpdateBook(request: Book) returns (reply: Reply, err: Option<StoreError>)
      modifies this
      ensures err == None
      ensures FirstMatch(old(books), ById(request.id)).None? ==>
        reply == EmptyReply && books == old(books)
      ensures FirstMatch(old(books), ById(request.id)).Some? ==>
        reply == ReplyOf(request) &&
        books == old(books)[FirstMatch(old(books), ById(request.id)).value := request]
      ensures DistinctIds(old(books)) ==> DistinctIds(books)
    {
      for i := 0 to |books|
        invariant forall j :: 0 <= j < i ==> books[j].id != request.id
      {
        if books[i].id == request.id {
          books := books[i := books[i].(id := request.id, title := request.title, author := request.author)];
          return ReplyOf(request), None;
        }
      }
      return EmptyReply, None;
    }

    /** `GetAllBooks`: one reply per record, in insertion order. */
    method GetAllBooks() returns (replies: seq<Reply>)
      ensures |replies| == |books|
      ensures forall i :: 0 <= i < |books| ==> replies[i] == ReplyOf(books[i])
    {
      replies := [];
      for i := 0 to |books|
        invariant |replies| == i
        invariant forall j :: 0 <= j < i ==> replies[j] == ReplyOf(books[j])
      {
        replies := replies + [ReplyOf(books[i])];
      }
    }

    /** The loop the three lookups share: the first match in insertion order, or the query's error. */
    method Find(q: Query) returns (reply: Reply, err: Option<StoreError>)
      ensures FirstMatch(books, q).Some? ==> reply == ReplyOf(books[FirstMatch(books, q).value]) && err == None
      ensures FirstMatch(books, q).None? ==> reply == EmptyReply && err == Some(NotFound(q))
    {
      for i := 0 to |books|
        invariant forall j :: 0 <= j < i ==> !Matches(books[j], q)
      {
        if Matches(books[i], q) {
          return ReplyOf(books[i]), None;
        }
      }
      return EmptyReply, Some(NotFound(q));
    }

    /** `GetBookByID`: the first record with the ID, or "ID doesn't exists". */
    method GetBookByID(id: int) returns (reply: Reply, err: Option<StoreError>)
      ensures FirstMatch(books, ById(id)).Some? ==>
        reply == ReplyOf(books[FirstMatch(books, ById(id)).value]) && err == None
      ensures FirstMatch(books, ById(id)).None? ==> reply == EmptyReply && err == Some(IdDoesNotExist)
    {
      reply, err := Find(ById(id));
    }

    /** `GetBookByAuthor`: the first record by the author, or "author doesn't exists". */
    method GetBookByAuthor(author: string) returns (reply: Reply, err: Option<StoreError>)
      ensures FirstMatch(books, ByAuthor(author)).Some? ==>
        reply == ReplyOf(books[FirstMatch(books, ByAuthor(author)).value]) && err == None
      ensures FirstMatch(books, ByAuthor(author)).None? ==> reply == EmptyReply && err == Some(AuthorDoesNotExist)
    {
      reply, err := Find(ByAuthor(author));
    }

    /** `GetBookByTitle`: the first record with the title, or "title Doesn't exists". */
    method GetBookByTitle(title: string) returns (reply: Reply, err: Option<StoreError>)
      ensures FirstMatch(books, ByTitle(title)).Some? ==>
        reply == ReplyOf(books[FirstMatch(books, ByTitle(title)).value]) && err == None
      ensures FirstMatch(books, ByTitle(title)).None? ==> reply == EmptyReply && err == Some(TitleDoesNotExist)
    {
      reply, err := Find(ByTitle(title));
    }

    /**
     * `Arbitrary`: walk the decoded document's keys in whatever order the map
     * yields them, apply the brand rule, and answer the re-encoded document,
     * nil if it does not encode, always with a nil error.
     */
    method Arbitrary(data: map<string, Native>, num: Numerics) returns (doc: Option<Fields>, err: Option<ConvError>)
      ensures doc == Respond(MaptoStruct(PatchBrand(data), num))
      ensures doc.None? <==> MaptoStruct(PatchBrand(data), num).Failure?
      ensures doc.Some? ==> doc.value == MaptoStruct(PatchBrand(data), num).value
      ensures err == None
    {
      var mapper := data;
      var todo := data.Keys;
      while todo != {}
        invariant todo <= data.Keys
        invariant mapper == if "brand" in todo then data else PatchBrand(data)
        decreases todo
      {
        var k :| k in todo;
        var v := mapper[k];
        if k == "brand" && v == NString("Subaru") {
          mapper := mapper["waiver" := NBool(true)]["country" := NString("america")];
        }
        todo := todo - {k};
      }
      var out := MaptoStruct(mapper, num);
      return Respond(out), None;
    }

    /**
     * `DataArbitrary`: walk the decoded document's keys in whatever order the
     * map yields them, patch the nested "ArbitraryData" map in place, and
     * answer the re-encoded document, nil if it does not encode, always with
     * a nil error.
     */
    method DataArbitrary(request: map<string, Native>, num: Numerics) returns (doc: Option<Fields>, err: Option<ConvError>)
      ensures doc == Respond(MaptoStruct(PatchNested(request), num))
      ensures doc.None? <==> MaptoStruct(PatchNested(request), num).Failure?
      ensures doc.Some? ==> doc.value == MaptoStruct(PatchNested(request), num).value
      ensures err == None
    {
      var mapper := request;
      var todo := request.Keys;
      while todo != {}
        invariant todo <= request.Keys
        invariant mapper == if "ArbitraryData" in todo then request else PatchNested(request)
        decreases todo
      {
        var k :| k in todo;
        if k == "ArbitraryData" {
          var a := mapper["ArbitraryData"];
          if a.NMap? {
            var b := a.entries["familySharing" := NBool(false)]["country" := NString("Africa")];
            mapper := mapper["ArbitraryData" := NMap(b)];
          }
        }
        todo := todo - {k};
      }
      var out := MaptoStruct(mapper, num);
      return Respond(out), None;
    }
  }
}
