/**
 * The dynamic-value codec of books/util/converter.go: conversion between
 * protobuf's `google.protobuf.Value` / `Struct` well-known types (the wire
 * form, `DynValue`) and the native Go values the service works with
 * (`Native`).
 *
 * `Value` decodes a wire value, `Entry` encodes a native value by its kind,
 * and `MaptoStruct` encodes a whole string-keyed document.  Both directions
 * are closed, type-directed recursions over finite trees.
 */
module Converter {
  import opened Wrappers

  /** An IEEE-754 double, carried as its 64 bits and never interpreted. */
  datatype Float64 = Float64(bits: bv64)

  /**
   * The numeric conversions Go performs on the way to a `NumberValue`:
   * `float64(i)` of a signed or unsigned integer (round to nearest, the
   * same function of the integer's value for both signednesses) and the
   * widening of a `float32`.  They are left abstract: the codec only
   * carries their results.
   */
  datatype Numerics = Numerics(fromInteger: int -> Float64, widen: bv32 -> Float64)

  /**
   * `google.protobuf.Value`.  The `Kind` oneof has six cases, or none at all
   * (`NoKind`).  Elements of a list and fields of a struct are pointers,
   * which may be nil: hence `Option<DynValue>`.
   */
  datatype DynValue =
    | NoKind
    | NullValue
    | NumberValue(number: Float64)
    | StringValue(str: string)
    | BoolValue(boolValue: bool)
    | ListValue(values: seq<Option<DynValue>>)
    | StructValue(fields: Fields)

  /** The `Fields` map of a `google.protobuf.Struct`. */
  type Fields = map<string, Option<DynValue>>

  /** The integer kinds Go's reflection reports for signed integers. */
  datatype SignedWidth = Int | Int8 | Int16 | Int32 | Int64

  /** The integer kinds Go's reflection reports for unsigned integers (`Uintptr` is not one of them). */
  datatype UnsignedWidth = Uint | Uint8 | Uint16 | Uint32 | Uint64

  /** Reflection kinds that `Entry` has no case for. */
  datatype OtherKind = Uintptr | Complex64 | Complex128 | Chan | Func | Pointer | UnsafePointer

  /**
   * A native Go value as `Entry` sees it through reflection, and as `Value`
   * produces it.
   *  - `NString`, `NBool`: values of the predeclared types `string`, `bool`.
   *  - `NDefinedString`, `NDefinedBool`: values of a defined type whose kind
   *    is string or bool (`type Brand string`); the type assertion to the
   *    predeclared type fails on them.
   *  - `NList`: an array or a slice (a nil slice is the empty list).
   *  - `NRecord`: a Go struct, given by the field map the `structs` package
   *    makes of it.
   *  - `NMap`: a map with string keys (`map[string]interface{}` when decoded).
   *  - `NError`: the error object `Value` returns, as a value, for a kind-less
   *    wire value; its dynamic type is a pointer.
   */
  datatype Native =
    | NNil
    | NString(s: string)
    | NDefinedString(typeName: string, ds: string)
    | NInt(signed: SignedWidth, i: int)
    | NUint(unsigned: UnsignedWidth, u: nat)
    | NFloat32(f32: bv32)
    | NFloat64(f64: Float64)
    | NBool(b: bool)
    | NDefinedBool(boolTypeName: string, db: bool)
    | NList(elems: seq<Native>)
    | NRecord(recordFields: map<string, Native>)
    | NMap(entries: map<string, Native>)
    | NError
    | NOther(kind: OtherKind)

  /** The one error kind of the codec; the message text is not modelled. */
  datatype ConvError = ConversionError

  // ---------------------------------------------------------------------------
  // Decoding: wire value to native value
  // ---------------------------------------------------------------------------

  /**
   * `Value`: decode a (possibly nil) wire value.  A nil pointer and an
   * explicit null both give nil; a container is decoded element by element,
   * and a failing element aborts the whole container; a kind-less value
   * gives the error object as the RESULT, with no error.
   */
  function Value(v: Option<DynValue>): (r: Result<Native, ConvError>)
  {
    match v
    case None => Success(NNil)
    case Some(d) =>
      match d
      case StructValue(fields) =>
        if exists k :: k in fields && Value(fields[k]).Failure? then Failure(ConversionError)
        else Success(NMap(map k | k in fields :: Value(fields[k]).value))
      case ListValue(values) =>
        if exists i :: 0 <= i < |values| && Value(values[i]).Failure? then Failure(ConversionError)
        else Success(NList(seq(|values|, i requires 0 <= i < |values| => Value(values[i]).value)))
      case NullValue => Success(NNil)
      case NumberValue(n) => Success(NFloat64(n))
      case StringValue(s) => Success(NString(s))
      case BoolValue(b) => Success(NBool(b))
      case NoKind => Success(NError)
  }

  /** Decoding never reports an error: the only fallible case returns its error as a value. */
  lemma {:induction false} ValueNeverFails(v: Option<DynValue>)
    ensures Value(v).Success?
  {
    match v
    case None =>
    case Some(d) =>
      match d
      case StructValue(fields) =>
        forall k | k in fields ensures Value(fields[k]).Success? {
          ValueNeverFails(fields[k]);
        }
      case ListValue(values) =>
        forall i | 0 <= i < |values| ensures Value(values[i]).Success? {
          ValueNeverFails(values[i]);
        }
      case _ =>
  }

  /** A nil pointer and an explicit null decode to the same native nil. */
  lemma NilAndNullAgree()
    ensures Value(None) == Value(Some(NullValue)) == Success(NNil)
  {
  }

  /** Scalars decode to the same payload; a kind-less value decodes to the error object. */
  lemma ValueScalars(n: Float64, s: string, b: bool)
    ensures Value(Some(NumberValue(n))) == Success(NFloat64(n))
    ensures Value(Some(StringValue(s))) == Success(NString(s))
    ensures Value(Some(BoolValue(b))) == Success(NBool(b))
    ensures Value(Some(NoKind)) == Success(NError)
  {
  }

  /** A list decodes to a list of the same length whose element i is the decoding of element i. */
  lemma ValueList(values: seq<Option<DynValue>>)
    ensures Value(Some(ListValue(values))).Success?
    ensures Value(Some(ListValue(values))).value.NList?
    ensures |Value(Some(ListValue(values))).value.elems| == |values|
    ensures forall i :: 0 <= i < |values| ==>
      Value(values[i]).Success? && Value(Some(ListValue(values))).value.elems[i] == Value(values[i]).value
  {
    forall i | 0 <= i < |values| ensures Value(values[i]).Success? {
      ValueNeverFails(values[i]);
    }
  }

  /** A struct decodes to a map with exactly its key set, each field decoded on its own. */
  lemma ValueStruct(fields: Fields)
    ensures Value(Some(StructValue(fields))).Success?
    ensures Value(Some(StructValue(fields))).value.NMap?
    ensures Value(Some(StructValue(fields))).value.entries.Keys == fields.Keys
    ensures forall k :: k in fields ==>
      Value(fields[k]).Success? && Value(Some(StructValue(fields))).value.entries[k] == Value(fields[k]).value
  {
    forall k | k in fields ensures Value(fields[k]).Success? {
      ValueNeverFails(fields[k]);
    }
  }

  // ---------------------------------------------------------------------------
  // Encoding: native value to wire value
  // ---------------------------------------------------------------------------

  /**
   * `Entry`: encode a native value by its reflection kind.  Integers of every
   * width and floats become numbers; arrays and slices become lists; records
   * and maps become structs; every other kind is an error.
   */
  function Entry(x: Native, num: Numerics): (r: Result<DynValue, ConvError>)
    decreases x, 2
  {
    match x
    case NNil => Success(NullValue)
    case NString(s) => Success(StringValue(s))
    case NDefinedString(_, _) => Failure(ConversionError)
    case NInt(_, i) => Success(NumberValue(num.fromInteger(i)))
    case NUint(_, u) => Success(NumberValue(num.fromInteger(u)))
    case NFloat32(f) => Success(NumberValue(num.widen(f)))
    case NFloat64(f) => Success(NumberValue(f))
    case NBool(b) => Success(BoolValue(b))
    case NDefinedBool(_, _) => Failure(ConversionError)
    case NList(elems) =>
      if exists i :: 0 <= i < |elems| && Entry(elems[i], num).Failure? then Failure(ConversionError)
      else Success(ListValue(seq(|elems|, i requires 0 <= i < |elems| => Some(Entry(elems[i], num).value))))
    case NRecord(f) =>
      (match EncodeFields(f, num, x)
       case Success(fields) => Success(StructValue(fields))
       case Failure(e) => Failure(e))
    case NMap(m) =>
      (match MaptoStruct(m, num)
       case Success(fields) => Success(StructValue(fields))
       case Failure(e) => Failure(e))
    case NError => Failure(ConversionError)
    case NOther(_) => Failure(ConversionError)
  }

  /**
   * The loop of `MaptoStruct`: encode every entry of a string-keyed map, and
   * fail as a whole if any entry fails.  `owner` is the native value the map
   * belongs to; it only serves the termination argument.
   */
  function EncodeFields(m: map<string, Native>, num: Numerics, ghost owner: Native): (r: Result<Fields, ConvError>)
    requires owner == NMap(m) || owner == NRecord(m)
    ensures r.Success? <==> forall k :: k in m ==> Entry(m[k], num).Success?
    ensures r.Success? ==> r.value.Keys == m.Keys
    ensures r.Success? ==> forall k :: k in m ==> r.value[k] == Some(Entry(m[k], num).value)
    decreases owner, 0
  {
    if exists k :: k in m && Entry(m[k], num).Failure? then Failure(ConversionError)
    else Success(map k | k in m :: Some(Entry(m[k], num).value))
  }

  /**
   * `MaptoStruct`: encode a whole document.  It succeeds exactly when every
   * entry encodes, and then has the input's key set with every entry encoded
   * on its own; otherwise no partial document is returned.
   */
  function MaptoStruct(input: map<string, Native>, num: Numerics): (r: Result<Fields, ConvError>)
    ensures r.Success? <==> forall k :: k in input ==> Entry(input[k], num).Success?
    ensures r.Success? ==> r.value.Keys == input.Keys
    ensures r.Success? ==> forall k :: k in input ==> r.value[k] == Some(Entry(input[k], num).value)
    decreases NMap(input), 1
  {
    EncodeFields(input, num, NMap(input))
  }

  /** nil, strings and bools encode to the matching kind with the same payload; defined string and bool types fail. */
  lemma EntryScalars(s: string, b: bool, name: string, num: Numerics)
    ensures Entry(NNil, num) == Success(NullValue)
    ensures Entry(NString(s), num) == Success(StringValue(s))
    ensures Entry(NBool(b), num) == Success(BoolValue(b))
    ensures Entry(NDefinedString(name, s), num).Failure?
    ensures Entry(NDefinedBool(name, b), num).Failure?
  {
  }

  /** Numbers of every width encode to a number, and decode back as a float64, not as an integer. */
  lemma EntryNumbers(w: SignedWidth, i: int, uw: UnsignedWidth, u: nat, f: bv32, num: Numerics)
    ensures Entry(NInt(w, i), num) == Success(NumberValue(num.fromInteger(i)))
    ensures Entry(NUint(uw, u), num) == Success(NumberValue(num.fromInteger(u)))
    ensures Entry(NFloat32(f), num) == Success(NumberValue(num.widen(f)))
    ensures Value(Some(Entry(NInt(w, i), num).value)) == Success(NFloat64(num.fromInteger(i)))
    ensures Value(Some(Entry(NUint(uw, u), num).value)) == Success(NFloat64(num.fromInteger(u)))
  {
  }

  /** Kinds outside the handled set, the decoded error object among them, fail. */
  lemma EntryUnsupported(k: OtherKind, num: Numerics)
    ensures Entry(NOther(k), num).Failure?
    ensures Entry(NError, num).Failure?
  {
  }

  /**
   * An array or slice encodes to a list of the same length, element by
   * element in index order, and fails if any element fails.
   */
  lemma EntryList(elems: seq<Native>, num: Numerics)
    ensures Entry(NList(elems), num).Success? <==> forall i :: 0 <= i < |elems| ==> Entry(elems[i], num).Success?
    ensures Entry(NList(elems), num).Success? ==>
      && Entry(NList(elems), num).value.ListValue?
      && |Entry(NList(elems), num).value.values| == |elems|
      && forall i :: 0 <= i < |elems| ==> Entry(NList(elems), num).value.values[i] == Some(Entry(elems[i], num).value)
  {
  }

  /** A record encodes exactly as the map of its fields does. */
  lemma EntryRecordIsMap(f: map<string, Native>, num: Numerics)
    ensures Entry(NRecord(f), num) == Entry(NMap(f), num)
  {
    var asRecord, asMap := EncodeFields(f, num, NRecord(f)), EncodeFields(f, num, NMap(f));
    if asRecord.Success? {
      assert asRecord.value == asMap.value;
    }
  }

  // ---------------------------------------------------------------------------
  // Round trips
  // ---------------------------------------------------------------------------

  /** The native values `Value` can produce, the error object aside: nil, string, float64, bool, lists and maps of them. */
  ghost predicate Plain(x: Native)
  {
    match x
    case NNil => true
    case NString(_) => true
    case NFloat64(_) => true
    case NBool(_) => true
    case NList(elems) => forall i :: 0 <= i < |elems| ==> Plain(elems[i])
    case NMap(m) => forall k :: k in m ==> Plain(m[k])
    case _ => false
  }

  /** Decoding the encoding of a plain native value gives the value back. */
  lemma {:induction false} RoundTrip(x: Native, num: Numerics)
    requires Plain(x)
    ensures Entry(x, num).Success?
    ensures Value(Some(Entry(x, num).value)) == Success(x)
  {
    match x
    case NList(elems) =>
      forall i | 0 <= i < |elems|
        ensures Entry(elems[i], num).Success? && Value(Some(Entry(elems[i], num).value)) == Success(elems[i])
      {
        RoundTrip(elems[i], num);
      }
      var values := Entry(x, num).value.values;
      assert forall i :: 0 <= i < |values| ==> Value(values[i]) == Success(elems[i]);
      assert seq(|values|, i requires 0 <= i < |values| => Value(values[i]).value) == elems;
    case NMap(m) =>
      forall k | k in m
        ensures Entry(m[k], num).Success? && Value(Some(Entry(m[k], num).value)) == Success(m[k])
      {
        RoundTrip(m[k], num);
      }
      var fields := MaptoStruct(m, num).value;
      assert forall k :: k in fields ==> Value(fields[k]) == Success(m[k]);
      ValueStruct(fields);
      assert Value(Some(StructValue(fields))).value.entries == m;
    case _ =>
  }

  /** Decoding a document encoded by `MaptoStruct` from plain values gives the document back. */
  lemma DocumentRoundTrip(m: map<string, Native>, num: Numerics)
    requires forall k :: k in m ==> Plain(m[k])
    ensures MaptoStruct(m, num).Success?
    ensures Value(Some(StructValue(MaptoStruct(m, num).value))) == Success(NMap(m))
  {
    assert Plain(NMap(m));
    RoundTrip(NMap(m), num);
  }

  /** Wire values with no kind-less node and no nil pointer inside. */
  ghost predicate Canonical(d: DynValue)
  {
    match d
    case NoKind => false
    case ListValue(values) => forall i :: 0 <= i < |values| ==> values[i].Some? && Canonical(values[i].value)
    case StructValue(fields) => forall k :: k in fields ==> fields[k].Some? && Canonical(fields[k].value)
    case _ => true
  }

  /** Encoding the decoding of a canonical wire value gives the wire value back. */
  lemma {:induction false} ReverseRoundTrip(d: DynValue, num: Numerics)
    requires Canonical(d)
    ensures Value(Some(d)).Success?
    ensures Entry(Value(Some(d)).value, num) == Success(d)
  {
    ValueNeverFails(Some(d));
    match d
    case ListValue(values) =>
      forall i | 0 <= i < |values|
        ensures Value(values[i]).Success? && Entry(Value(values[i]).value, num) == Success(values[i].value)
      {
        ReverseRoundTrip(values[i].value, num);
      }
      var elems := Value(Some(d)).value.elems;
      assert forall i :: 0 <= i < |elems| ==> Entry(elems[i], num) == Success(values[i].value);
      assert seq(|elems|, i requires 0 <= i < |elems| => Some(Entry(elems[i], num).value)) == values;
    case StructValue(fields) =>
      forall k | k in fields
        ensures Value(fields[k]).Success? && Entry(Value(fields[k]).value, num) == Success(fields[k].value)
      {
        ReverseRoundTrip(fields[k].value, num);
      }
      var m := Value(Some(d)).value.entries;
      assert forall k :: k in m ==> Entry(m[k], num) == Success(fields[k].value);
      assert (map k | k in m :: Some(Entry(m[k], num).value)) == fields;
      var r := MaptoStruct(m, num);
      assert r.Success? && r.value.Keys == fields.Keys;
      assert r.value == fields;
    case _ =>
  }

  /** A kind-less field decodes without error, but the document it decodes to cannot be encoded again. */
  lemma KindlessFieldBlocksReencoding(fields: Fields, key: string, num: Numerics)
    requires key in fields && fields[key] == Some(NoKind)
    ensures Value(Some(StructValue(fields))).Success?
    ensures MaptoStruct(Value(Some(StructValue(fields))).value.entries, num).Failure?
  {
    ValueStruct(fields);
  }

  // ---------------------------------------------------------------------------
  // The loops of converter.go, proved equal to the functions above
  // ---------------------------------------------------------------------------

  /**
   * `Value` as the source runs it: a struct is decoded into a fresh map one
   * key at a time in an unspecified order, a list into a preallocated slice
   * in index order, and the first error aborts the container.
   */
  method DecodeValue(v: Option<DynValue>) returns (r: Result<Native, ConvError>)
    ensures r == Value(v)
  {
    if v.None? {
      return Success(NNil);
    }
    var d := v.value;
    match d
    case StructValue(fields) =>
      var result: map<string, Native> := map[];
      var todo := fields.Keys;
      while todo != {}
        invariant todo <= fields.Keys
        invariant result.Keys == fields.Keys - todo
        invariant forall k :: k in result ==> Value(fields[k]) == Success(result[k])
        decreases todo
      {
        var k :| k in todo;
        var e := DecodeValue(fields[k]);
        if e.Failure? {
          return Failure(e.error);
        }
        result := result[k := e.value];
        todo := todo - {k};
      }
      ValueStruct(fields);
      assert Value(v).value.entries == result;
      return Success(NMap(result));
    case ListValue(values) =>
      var result := new Native[|values|];
      for i := 0 to |values|
        invariant forall j :: 0 <= j < i ==> Value(values[j]) == Success(result[j])
      {
        var e := DecodeValue(values[i]);
        if e.Failure? {
          return Failure(e.error);
        }
        result[i] := e.value;
      }
      assert result[..] == seq(|values|, i requires 0 <= i < |values| => Value(values[i]).value);
      return Success(NList(result[..]));
    case NullValue =>
      return Success(NNil);
    case NumberValue(n) =>
      return Success(NFloat64(n));
    case StringValue(s) =>
      return Success(NString(s));
    case BoolValue(b) =>
      return Success(NBool(b));
    case NoKind =>
      return Success(NError);
  }

  /**
   * `Entry` as the source runs it: an array or slice is encoded into a
   * preallocated list in index order, stopping at the first failing element;
   * a record or a map goes through the `MaptoStruct` loop.
   */
  method EncodeEntry(x: Native, num: Numerics) returns (r: Result<DynValue, ConvError>)
    ensures r == Entry(x, num)
    decreases x, 2
  {
    match x
    case NNil =>
      return Success(NullValue);
    case NString(s) =>
      return Success(StringValue(s));
    case NDefinedString(_, _) =>
      return Failure(ConversionError);
    case NInt(_, i) =>
      return Success(NumberValue(num.fromInteger(i)));
    case NUint(_, u) =>
      return Success(NumberValue(num.fromInteger(u)));
    case NFloat32(f) =>
      return Success(NumberValue(num.widen(f)));
    case NFloat64(f) =>
      return Success(NumberValue(f));
    case NBool(b) =>
      return Success(BoolValue(b));
    case NDefinedBool(_, _) =>
      return Failure(ConversionError);
    case NList(elems) =>
      var values := new Option<DynValue>[|elems|];
      for i := 0 to |elems|
        invariant forall j :: 0 <= j < i ==> Entry(elems[j], num).Success? && values[j] == Some(Entry(elems[j], num).value)
      {
        var e := EncodeEntry(elems[i], num);
        if e.Failure? {
          assert Entry(elems[i], num).Failure? && e.error == ConversionError;
          return Failure(e.error);
        }
        values[i] := Some(e.value);
      }
      assert values[..] == seq(|elems|, i requires 0 <= i < |elems| => Some(Entry(elems[i], num).value));
      return Success(ListValue(values[..]));
    case NRecord(f) =>
      var fields := EncodeMap(f, num, x);
      if fields.Failure? {
        return Failure(fields.error);
      }
      return Success(StructValue(fields.value));
    case NMap(m) =>
      var fields := EncodeMap(m, num, x);
      if fields.Failure? {
        return Failure(fields.error);
      }
      return Success(StructValue(fields.value));
    case NError =>
      return Failure(ConversionError);
    case NOther(_) =>
      return Failure(ConversionError);
  }

  /**
   * The loop of `MaptoStruct`: fill a fresh field map one key at a time in an
   * unspecified order, and return no document at all on the first failure.
   */
  method EncodeMap(input: map<string, Native>, num: Numerics, ghost owner: Native) returns (r: Result<Fields, ConvError>)
    requires owner == NMap(input) || owner == NRecord(input)
    ensures r == EncodeFields(input, num, owner)
    decreases owner, 0
  {
    var result: Fields := map[];
    var todo := input.Keys;
    while todo != {}
      invariant todo <= input.Keys
      invariant result.Keys == input.Keys - todo
      invariant forall k :: k in result ==> Entry(input[k], num).Success? && result[k] == Some(Entry(input[k], num).value)
      decreases todo
    {
      var k :| k in todo;
      var e := EncodeEntry(input[k], num);
      if e.Failure? {
        assert e.error == ConversionError;
        return Failure(e.error);
      }
      result := result[k := Some(e.value)];
      todo := todo - {k};
    }
    assert EncodeFields(input, num, owner).value == result;
    return Success(result);
  }
}
