# Books service: dynamic-value codec and book store, in Dafny

This project models the core of a small gRPC book service written in Go.

- **Converter** (`converter.dfy`, from `books/util/converter.go`): the codec between protobuf's
  `google.protobuf.Value` / `Struct` well-known types and native Go values.
  - `DynValue` is the wire form: a tagged union of null, number, string, bool, list and struct, or no kind
    set at all. List elements and struct fields are pointers, so they may be nil (`Option<DynValue>`).
  - `Native` is the Go side. It is a closed datatype that stands in for reflection's kind dispatch: nil,
    string, the integer widths, the float widths, bool, array/slice, struct record, string-keyed map, the
    error object, and the kinds the encoder refuses.
  - `Value` decodes, `Entry` encodes by kind, and `MaptoStruct` encodes a whole document. They are total
    recursive functions. `DecodeValue`, `EncodeEntry` and `EncodeMap` are the source's loops, written as
    methods and proved equal to those functions.
- **Server** (`server.dfy`, from `books/server/server.go`):
  - `BooksService` is a class holding the records in a `seq<Book>`. Its methods are `AddBook`, `UpdateBook`,
    `GetAllBooks` and the three first-match lookups.
  - The two payload handlers `Arbitrary` and `DataArbitrary` walk the decoded document's keys in an
    unspecified order, apply their rewrite rule, and encode the result with `MaptoStruct`. Each is proved
    equal to a pure patch function (`PatchBrand`, `PatchNested`) followed by `MaptoStruct`. So the answer
    does not depend on the order the keys are visited in.
- `wrappers.dfy` holds `Option` and `Result`.

Two quirks of the code are modelled as written:
- A `Value` with no kind set does not fail. It decodes to the error object used as a value, with a nil error.
  `ValueNeverFails` proves that decoding never reports an error.
- Both handlers answer a nil error even when re-encoding fails. In that case the document they answer is nil.

Conventions:
- The float64 payload of a number is an opaque 64-bit pattern.
- `float64(i)` of an integer and the widening of a `float32` are the two functions of a `Numerics`
  parameter. The model makes no precision claim about them.
- Errors are tags: one `ConversionError` for the codec, and one `StoreError` per message text of the store.

## Model

| member | source | states |
|---|---|---|
| `Converter.ValueNeverFails` | books/util/converter.go:12-50 | decoding never returns an error: its only fallible case returns the error object as the value, and the containers can only propagate the errors of their elements |
| `Converter.NilAndNullAgree` | books/util/converter.go:14-39 | a nil pointer and an explicit null kind both decode to native nil |
| `Converter.ValueScalars` | books/util/converter.go:40-49 | number, string and bool payloads decode unchanged; a kind-less value decodes to the error object, with no error |
| `Converter.ValueList` | books/util/converter.go:27-36 | a list decodes to a list of the same length whose element i is the decoding of element i |
| `Converter.ValueStruct` | books/util/converter.go:17-26 | a struct decodes to a map with exactly the struct's key set, each field decoded on its own |
| `Converter.DecodeValue` | books/util/converter.go:12-50 | the source's loops (a map filled key by key in any order, a preallocated slice filled in index order, an early return on error) compute exactly `Value` |
| `Converter.EntryScalars` | books/util/converter.go:54-74 | nil encodes to Null; a string and a bool encode to their kinds with the same payload; a value of a defined string or bool type fails the type assertion and is an error |
| `Converter.EntryNumbers` | books/util/converter.go:64-69 | every signed and unsigned integer width and float32 encode to a number through the float64 conversion, and an integer decodes back as a float64, not as an integer |
| `Converter.EntryUnsupported` | books/util/converter.go:97 | a kind outside the handled set is an error, and so is the decoded error object, whose kind is pointer |
| `Converter.EntryList` | books/util/converter.go:75-85 | an array or slice encodes exactly when every element encodes, to a list of the same length holding the element encodings in index order |
| `Converter.EntryRecordIsMap` | books/util/converter.go:86-87 | a struct record encodes exactly as the map of its fields |
| `Converter.EncodeFields` | books/util/converter.go:100-110 | a string-keyed map encodes exactly when all its entries encode, and then has the input's key set with each entry encoded on its own |
| `Converter.MaptoStruct` | books/util/converter.go:100-110 | a document encodes exactly when every entry encodes, to a document with the input's key set; otherwise no partial document at all |
| `Converter.EncodeEntry` | books/util/converter.go:52-98 | the source's loops (index order over a preallocated list, an early return on the first failing element) compute exactly `Entry` |
| `Converter.EncodeMap` | books/util/converter.go:100-110 | the `MaptoStruct` loop (key by key in any order, no document on the first failure) computes exactly the map encoding |
| `Converter.RoundTrip` | books/util/converter.go:12-98 | a native tree built from nil, string, float64, bool, lists and string-keyed maps encodes, and decoding its encoding gives it back |
| `Converter.DocumentRoundTrip` | books/util/converter.go:100-110 | a document of such values encodes, and its decoding is the document |
| `Converter.ReverseRoundTrip` | books/util/converter.go:12-98 | a wire value with no kind-less node and no nil pointer decodes, and encoding the decoding gives it back |
| `Converter.KindlessFieldBlocksReencoding` | books/util/converter.go:49 | a document with a kind-less field decodes without error, but the decoded document cannot be encoded again |
| `Server.FirstMatch` | books/server/server.go:104-145 | the position of the first stored record, in insertion order, that matches the query; none exactly when no record matches |
| `Server.AddKeepsIdsDistinct` | books/server/server.go:48-53 | appending a record whose ID is not yet stored keeps the stored IDs pairwise distinct |
| `Server.UpdateKeepsIdsDistinct` | books/server/server.go:71-75 | overwriting a record by one with the same ID keeps the stored IDs pairwise distinct |
| `Server.FirstIdMatchIsUnique` | books/server/server.go:71-81 | with distinct IDs, the first record with an ID is the only one that has it |
| `Server.BooksService.constructor` | books/server/server.go:24-27 | a new service stores no records |
| `Server.BooksService.AddBook` | books/server/server.go:47-67 | a duplicate ID gives an empty reply, the "ID already exists" error and an unchanged store; otherwise the request is appended at the end and echoed with no error; distinct IDs stay distinct |
| `Server.BooksService.UpdateBook` | books/server/server.go:69-84 | the first record with the request's ID becomes the request and nothing else changes, and the request is echoed; with no match the reply is empty and the store unchanged; the error is always nil; distinct IDs stay distinct |
| `Server.BooksService.GetAllBooks` | books/server/server.go:86-102 | one reply per stored record, in insertion order, with the same ID, title and author |
| `Server.BooksService.Find` | books/server/server.go:104-145 | the loop the lookups share answers the first matching record, or an empty reply and the query's "doesn't exists" error |
| `Server.BooksService.GetBookByID` | books/server/server.go:104-116 | the first record with the ID, or an empty reply and "ID doesn't exists" |
| `Server.BooksService.GetBookByAuthor` | books/server/server.go:118-130 | the first record by the author, or an empty reply and "author doesn't exists" |
| `Server.BooksService.GetBookByTitle` | books/server/server.go:132-145 | the first record with the title, or an empty reply and "title Doesn't exists" |
| `Server.PatchBrand` | books/server/server.go:151-158 | when "brand" is the string "Subaru", the map gains "waiver" = true and "country" = "america", overwriting any values they had, and every other key is untouched; otherwise the map is unchanged |
| `Server.PatchBrandIdempotent` | books/server/server.go:151-158 | applying the brand rule twice is the same as applying it once |
| `Server.BooksService.Arbitrary` | books/server/server.go:147-166 | the key walk, in any order, answers the encoding of `PatchBrand` of the document; the document is nil exactly when that encoding fails, and the error is always nil |
| `Server.ArbitraryOnPlainData` | books/server/server.go:149-165 | on a document of plain values, the answer is a document whose decoding is the patched map |
| `Server.PatchNested` | books/server/server.go:174-185 | when "ArbitraryData" holds a nested map, that map gains "familySharing" = false and "country" = "Africa" with its other keys untouched; the top-level keys stay the same and the rest is unchanged; otherwise the document is unchanged |
| `Server.PatchNestedIdempotent` | books/server/server.go:174-185 | applying the nested rule twice is the same as applying it once |
| `Server.BooksService.DataArbitrary` | books/server/server.go:168-193 | the key walk, in any order, answers the encoding of `PatchNested` of the document; the document is nil exactly when that encoding fails, and the error is always nil |
| `Server.DataArbitraryOnPlainData` | books/server/server.go:172-192 | on a document of plain values, the answer is a document whose decoding is the patched map |
| `Server.UnencodableValueGivesNilBrandDocument` | books/server/server.go:151-165 | a value that cannot be encoded, outside the two keys the brand rule writes, makes `Arbitrary` answer a nil document |
| `Server.UnencodableValueGivesNilNestedDocument` | books/server/server.go:174-192 | a value that cannot be encoded, outside the nested map the rule patches, makes `DataArbitrary` answer a nil document |

## Left out

- `main` (books/server/server.go:29-45): the TCP listener, gRPC registration and reflection service are network I/O. books/client/client.go is client wiring and is not part of this model.
- Concurrency: gRPC may run handlers concurrently over the unsynchronised `books` slice. The model runs calls one at a time.
- Floating point: a number's payload is an opaque bit pattern. The int/uint to float64 conversion and the float32 widening are abstract functions passed in as `Numerics`. The model makes no claim about precision loss above 2^53. It also assumes that `float64` of an `int64` and of a `uint64` with the same value give the same double.
- `structpb`'s `AsMap` (books/server/server.go:149, 172) is library code outside the model. The handlers take the already-decoded native map. A nil request document is not modelled.
- The `structs` package's `Map` (books/util/converter.go:87) is library code outside the model. A record is given by the field map it produces. Filtering to exported fields and its own flattening of nested structs are not modelled.
- Reflection: kind dispatch is a closed datatype. Map keys are restricted to strings, so the key copy through `k.String()` (books/util/converter.go:89-93) is the identity and is not modelled as a loop.
- `DataArbitrary`: the type assertion to `map[string]interface{}` is modelled as "is a `NMap`". This is exact for decoded documents, whose maps all have that type. Maps of other value types are not distinguished.
- `EncodeEntry`, `Entry`: when the map case fails, the source returns a non-nil `Value` with a nil struct together with the error (books/util/converter.go:94-95). Every caller discards that value, and the model returns only the failure.
- A list or struct kind set with a nil inner message (`ListValue: nil`) makes the source dereference nil and panic. This is not modelled: `ListValue` and `StructValue` always carry their contents.
- Error messages (`fmt.Sprintf("%+v")`, `errors.New`) and `fmt.Println` logging: errors are tags. The codec has a single tag, because Go's random map order would make the particular message returned for a document unspecified.
- Pointer aliasing: `AddBook` stores the request pointer and `UpdateBook` writes through it (books/server/server.go:53, 73-75). Records are values in a sequence. The `v1` message types (books/pb/v1) are outside the model. The ID is modelled as an integer, as the client's literal `ID: 13` and its `%d` format show (books/client/client.go:20, 40).
- `NList`, `NMap`: a native value does not record the Go element type, array versus slice, or nil versus empty. So `RoundTrip` gives back the same abstract value, while in Go a `[]string` comes back as a `[]interface{}` and a nil map as an empty map.
- Go's `range` over a map may or may not visit keys added during the walk. The handler loops visit the keys present at the start. The keys a rule adds never satisfy either rule's condition, so every possible schedule gives the same map.
