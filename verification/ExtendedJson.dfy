/**
 Reading JSON into BSON and printing BSON as JSON, with MongoDB Extended JSON v2 wrappers
 for the types JSON lacks.
 */
module ExtendedJson {
  import opened Outcomes
  import opened JsonText
  import Orders

  /** A double by its bits; every NaN is one value to the store. */
  datatype Double = Finite(bits: nat) | Infinite(negative: bool) | NaN(payload: nat)

  datatype Bson =
    | BNull
    | BUndefined
    | Boolean(bool)
    | String(string)
    | Symbol(string)
    | Int32(I32)
    | Int64(I64)
    | BDouble(double: Double)
    | Array(elements: seq<Bson>)
    | Document(entries: seq<Entry>)
    | ObjectId(nat)
    | DateTime(millis: I64)
    | Binary(subtype: Octet, bytes: seq<nat>)
    | Regex(pattern: CText, options: CText)
    | Timestamp(time: U32, increment: U32)
    | Decimal128(nat)
    | MinKey
    | MaxKey
    | Code(string)
    | CodeWithScope(code: string, scope: seq<Entry>)
    | DbPointer

  datatype Entry = Entry(key: string, value: Bson)

  predicate IsI32(i: int) { -0x8000_0000 <= i < 0x8000_0000 }

  predicate IsI64(i: int) { -0x8000_0000_0000_0000 <= i < 0x8000_0000_0000_0000 }

  predicate IsU32(i: int) { 0 <= i < 0x1_0000_0000 }

  predicate NoNul(s: string) { '\0' !in s }

  type I32 = i: int | IsI32(i)

  type I64 = i: int | IsI64(i)

  type U32 = i: int | IsU32(i)

  type Octet = n: nat | n < 256

  /** The text of a regular expression cannot hold a NUL: the wire form ends it with one. */
  type CText = s: string | NoNul(s) witness ""

  /** The scalar parsers and printers that are not part of the converters. */
  datatype Codecs = Codecs(
    parseOid: string -> Option<nat>, printOid: nat -> string,
    parseDate: string -> Option<I64>,
    parseInteger: string -> Option<int>,
    parseDouble: string -> Option<Double>,
    parseDecimal: string -> Option<nat>, printDecimal: nat -> string,
    decode64: string -> Option<seq<nat>>, encode64: seq<nat> -> string,
    nearest: int -> nat)

  /** What is assumed of them: each printed form parses back, and the three spellings
      JSON has no number for parse as what they spell. */
  ghost predicate Faithful(c: Codecs) {
    && (forall o: nat :: c.parseOid(c.printOid(o)) == Some(o))
    && (forall d: nat :: c.parseDecimal(c.printDecimal(d)) == Some(d))
    && (forall b: seq<nat> :: c.decode64(c.encode64(b)) == Some(b))
    && c.parseDouble("Infinity") == Some(Infinite(false))
    && c.parseDouble("-Infinity") == Some(Infinite(true))
    && c.parseDouble("NaN").Some? && c.parseDouble("NaN").value.NaN?
  }

  // ---------------------------------------------------------------------------
  // Two hexadecimal digits, and the regex options
  // ---------------------------------------------------------------------------

  function HexDigit(n: nat): char
    requires n < 16
  {
    "0123456789abcdef"[n]
  }

  function FromHexDigit(c: char): (r: Option<nat>)
    ensures r.Some? ==> r.value < 16
  {
    if '0' <= c <= '9' then Some(c as nat - '0' as nat)
    else if 'a' <= c <= 'f' then Some(c as nat - 'a' as nat + 10)
    else if 'A' <= c <= 'F' then Some(c as nat - 'A' as nat + 10)
    else None
  }

  function PrintHex(n: Octet): string {
    [HexDigit(n / 16), HexDigit(n % 16)]
  }

  function ParseHex(s: string): Option<Octet> {
    if |s| != 2 then None
    else
      match (FromHexDigit(s[0]), FromHexDigit(s[1]))
      case (Some(high), Some(low)) => Some(16 * high + low)
      case _ => None
  }

  lemma HexRoundTrip(n: Octet)
    ensures ParseHex(PrintHex(n)) == Some(n)
  {
    DigitRoundTrip(n / 16);
    DigitRoundTrip(n % 16);
  }

  lemma DigitRoundTrip(n: nat)
    requires n < 16
    ensures FromHexDigit(HexDigit(n)) == Some(n)
  {
  }

  predicate Ascending(s: string) { forall i, j :: 0 <= i < j < |s| ==> s[i] <= s[j] }

  function Smaller(): (char, char) -> bool { (a, b) => a < b }

  /** The characters in order: the options as BSON keeps them. */
  function SortChars(s: string): string { Orders.Sorted(s, Smaller()) }

  lemma {:induction false} InsertAscends(s: string, c: char)
    requires Ascending(s)
    ensures Ascending(Orders.Insert(s, c, Smaller()))
  {
    if s != "" && !(c < s[0]) {
      var r := Orders.Insert(s[1..], c, Smaller());
      InsertAscends(s[1..], c);
      Orders.InsertKeepsElements(s[1..], c, Smaller());
      forall i | 0 <= i < |r| ensures s[0] <= r[i] {
        assert r[i] in multiset(r);
        assert r[i] == c || r[i] in s[1..];
      }
    }
  }

  /** The sorted options are the same characters, in order. */
  lemma {:induction false} SortAscends(s: string)
    ensures Ascending(SortChars(s)) && multiset(SortChars(s)) == multiset(s)
  {
    Orders.SortedKeepsElements(s, Smaller());
    if s == "" {
    } else {
      SortAscends(s[..|s| - 1]);
      InsertAscends(SortChars(s[..|s| - 1]), s[|s| - 1]);
    }
  }

  lemma {:induction false} SortedStays(s: string)
    requires Ascending(s)
    ensures SortChars(s) == s
  {
    if s == "" {
    } else {
      var front, last := s[..|s| - 1], s[|s| - 1];
      SortedStays(front);
      Orders.InsertSplits(front, last, |front|, Smaller());
      assert s == front + [last] + front[|front|..];
    }
  }

  // ---------------------------------------------------------------------------
  // Reading
  // ---------------------------------------------------------------------------

  function Get(fields: seq<Field>, key: string): Option<Json> {
    if fields == [] then None
    else if fields[0].key == key then Some(fields[0].value)
    else Get(fields[1..], key)
  }

  function AsText(j: Option<Json>): Option<string> { if j.Some? && j.value.Str? then Some(j.value.text) else None }

  function AsU32(j: Option<Json>): Option<U32> {
    match j
    case Some(Number(Integer(i))) => if IsU32(i) then Some(i) else None
    case _ => None
  }

  /** An integer parsed at the width that is wanted. */
  function ParseI64(c: Codecs, s: string): Option<I64> {
    match c.parseInteger(s)
    case Some(i) => if IsI64(i) then Some(i) else None
    case None => None
  }

  function ParseI32(c: Codecs, s: string): Option<I32> {
    match c.parseInteger(s)
    case Some(i) => if IsI32(i) then Some(i) else None
    case None => None
  }

  function ReadNumber(c: Codecs, n: Number): Bson {
    match n
    case Integer(i) => if IsI32(i) then Int32(i) else if IsI64(i) then Int64(i) else BDouble(Finite(c.nearest(i)))
    case Float(bits) => BDouble(Finite(bits))
  }

  /** The wrapper's value, or the error naming the wrapper. */
  function Wrap<T>(value: Option<T>, make: T -> Bson, what: string): Result<Bson, string> {
    match value
    case Some(v) => Ok(make(v))
    case None => Err(what)
  }

  function ReadDate(c: Codecs, value: Json): Option<I64> {
    match value
    case Number(Integer(i)) => if IsI64(i) then Some(i) else None
    case Str(s) => c.parseDate(s)
    case Obj(inner) =>
      var text := AsText(Get(inner, "$numberLong"));
      if text.Some? then ParseI64(c, text.value) else None
    case _ => None
  }

  function ReadBinary(c: Codecs, value: Json): Option<(Octet, seq<nat>)> {
    if !value.Obj? then None
    else
      var text := AsText(Get(value.fields, "base64"));
      if text.None? then None
      else
        match c.decode64(text.value)
        case None => None
        case Some(bytes) =>
          match Get(value.fields, "subType")
          case None => Some((0, bytes))
          case Some(Str(hex)) => (match ParseHex(hex) case Some(subtype) => Some((subtype, bytes)) case None => None)
          case Some(_) => None
  }

  function ReadRegex(value: Json): Option<(CText, CText)> {
    if !value.Obj? || |value.fields| != 2 then None
    else
      match (AsText(Get(value.fields, "pattern")), AsText(Get(value.fields, "options")))
      case (Some(pattern), Some(options)) =>
        var sorted := SortChars(options);
        if NoNul(pattern) && NoNul(sorted) then Some((pattern, sorted)) else None
      case _ => None
  }

  function ReadTimestamp(value: Json): Option<(U32, U32)> {
    if !value.Obj? || |value.fields| != 2 then None
    else
      match (AsU32(Get(value.fields, "t")), AsU32(Get(value.fields, "i")))
      case (Some(t), Some(i)) => Some((t, i))
      case _ => None
  }

  datatype Wrapper =
    | OidKey | DateKey | LongKey | IntKey | DoubleKey | DecimalKey
    | BinaryKey | RegexKey | TimestampKey | MinWrapper | MaxWrapper

  function Name(w: Wrapper): string {
    match w
    case OidKey => "$oid"
    case DateKey => "$date"
    case LongKey => "$numberLong"
    case IntKey => "$numberInt"
    case DoubleKey => "$numberDouble"
    case DecimalKey => "$numberDecimal"
    case BinaryKey => "$binary"
    case RegexKey => "$regularExpression"
    case TimestampKey => "$timestamp"
    case MinWrapper => "$minKey"
    case MaxWrapper => "$maxKey"
  }

  /** The wrapper a key names, if it names one. */
  function WrapperOf(key: string): Option<Wrapper> {
    if key == "$oid" then Some(OidKey)
    else if key == "$date" then Some(DateKey)
    else if key == "$numberLong" then Some(LongKey)
    else if key == "$numberInt" then Some(IntKey)
    else if key == "$numberDouble" then Some(DoubleKey)
    else if key == "$numberDecimal" then Some(DecimalKey)
    else if key == "$binary" then Some(BinaryKey)
    else if key == "$regularExpression" then Some(RegexKey)
    else if key == "$timestamp" then Some(TimestampKey)
    else if key == "$minKey" then Some(MinWrapper)
    else if key == "$maxKey" then Some(MaxWrapper)
    else None
  }

  lemma NamesAreDistinct(w: Wrapper)
    ensures WrapperOf(Name(w)) == Some(w)
  {
  }

  /** What parses a text, if the value is one. */
  function Parsed<T>(value: Json, parse: string -> Option<T>): Option<T> {
    if value.Str? then parse(value.text) else None
  }

  function ReadWrapper(c: Codecs, w: Wrapper, value: Json): Result<Bson, string> {
    match w
    case OidKey => Wrap(Parsed(value, c.parseOid), o => ObjectId(o), "$oid")
    case DateKey => Wrap(ReadDate(c, value), ms => DateTime(ms), "$date")
    case LongKey => Wrap(Parsed(value, s => ParseI64(c, s)), i => Int64(i), "$numberLong")
    case IntKey => Wrap(Parsed(value, s => ParseI32(c, s)), i => Int32(i), "$numberInt")
    case DoubleKey => Wrap(Parsed(value, c.parseDouble), d => BDouble(d), "$numberDouble")
    case DecimalKey => Wrap(Parsed(value, c.parseDecimal), d => Decimal128(d), "$numberDecimal")
    case BinaryKey => Wrap(ReadBinary(c, value), (b: (Octet, seq<nat>)) => Binary(b.0, b.1), "$binary")
    case RegexKey => Wrap(ReadRegex(value), (re: (CText, CText)) => Regex(re.0, re.1), "$regularExpression")
    case TimestampKey => Wrap(ReadTimestamp(value), (ts: (U32, U32)) => Timestamp(ts.0, ts.1), "$timestamp")
    case MinWrapper => Ok(MinKey)
    case MaxWrapper => Ok(MaxKey)
  }

  /** A JSON value as BSON.  Only an object of exactly one field is read as a wrapper. */
  function Read(c: Codecs, j: Json): Result<Bson, string>
    decreases j
  {
    match j
    case Null => Ok(BNull)
    case Bool(b) => Ok(Boolean(b))
    case Str(s) => Ok(String(s))
    case Number(n) => Ok(ReadNumber(c, n))
    case Arr(items) =>
      (match ReadItems(c, items)
       case Ok(elements) => Ok(Array(elements))
       case Err(what) => Err(what))
    case Obj(fields) =>
      if |fields| == 1 && WrapperOf(fields[0].key).Some? then
        ReadWrapper(c, WrapperOf(fields[0].key).value, fields[0].value)
      else
        match ReadFields(c, fields)
        case Ok(entries) => Ok(Document(entries))
        case Err(what) => Err(what)
  }

  function ReadItems(c: Codecs, items: seq<Json>): (r: Result<seq<Bson>, string>)
    ensures r.Ok? ==> |r.value| == |items|
    decreases items
  {
    if items == [] then Ok([])
    else
      match ReadItems(c, items[..|items| - 1])
      case Err(what) => Err(what)
      case Ok(elements) =>
        match Read(c, items[|items| - 1])
        case Err(what) => Err(what)
        case Ok(b) => Ok(elements + [b])
  }

  function ReadFields(c: Codecs, fields: seq<Field>): (r: Result<seq<Entry>, string>)
    ensures r.Ok? ==> |r.value| == |fields|
    decreases fields
  {
    if fields == [] then Ok([])
    else
      var last := fields[|fields| - 1];
      match ReadFields(c, fields[..|fields| - 1])
      case Err(what) => Err(what)
      case Ok(entries) =>
        match Read(c, last.value)
        case Err(what) => Err(what)
        case Ok(b) => Ok(entries + [Entry(last.key, b)])
  }

  // ---------------------------------------------------------------------------
  // Printing
  // ---------------------------------------------------------------------------

  function One(w: Wrapper, value: Json): Json { Obj([Field(Name(w), value)]) }

  function PrintDouble(d: Double): Json {
    match d
    case Finite(bits) => Number(Float(bits))
    case NaN(_) => One(DoubleKey, Str("NaN"))
    case Infinite(negative) => One(DoubleKey, Str(if negative then "-Infinity" else "Infinity"))
  }

  function Print(c: Codecs, b: Bson): Json
    decreases b
  {
    match b
    case BNull => Null
    case BUndefined => Null
    case Boolean(v) => Bool(v)
    case String(s) => Str(s)
    case Symbol(s) => Str(s)
    case Int32(i) => Number(Integer(i))
    case Int64(i) => Number(Integer(i))
    case BDouble(d) => PrintDouble(d)
    case Array(elements) => Arr(PrintItems(c, elements))
    case Document(entries) => Obj(PrintEntries(c, entries))
    case ObjectId(o) => One(OidKey, Str(c.printOid(o)))
    case DateTime(ms) => One(DateKey, Number(Integer(ms)))
    case Binary(subtype, bytes) => One(BinaryKey, BinaryFields(c, subtype, bytes))
    case Regex(pattern, options) => One(RegexKey, RegexFields(pattern, options))
    case Timestamp(t, i) => One(TimestampKey, TimestampFields(t, i))
    case Decimal128(d) => One(DecimalKey, Str(c.printDecimal(d)))
    case MinKey => One(MinWrapper, Number(Integer(1)))
    case MaxKey => One(MaxWrapper, Number(Integer(1)))
    case Code(code) => Obj([Field("$code", Str(code))])
    case CodeWithScope(code, scope) => Obj([Field("$code", Str(code)), Field("$scope", Obj(PrintEntries(c, scope)))])
    case DbPointer => Null
  }

  function PrintItems(c: Codecs, elements: seq<Bson>): (items: seq<Json>)
    ensures |items| == |elements|
    decreases elements
  {
    if elements == [] then []
    else PrintItems(c, elements[..|elements| - 1]) + [Print(c, elements[|elements| - 1])]
  }

  function PrintEntries(c: Codecs, entries: seq<Entry>): (fields: seq<Field>)
    ensures |fields| == |entries|
    decreases entries
  {
    if entries == [] then []
    else
      var last := entries[|entries| - 1];
      PrintEntries(c, entries[..|entries| - 1]) + [Field(last.key, Print(c, last.value))]
  }

  // ---------------------------------------------------------------------------
  // Reading what was printed
  // ---------------------------------------------------------------------------

  /** The values reading can give: no type that prints as another, no document that looks
      like a wrapper, and a regex's options in order. */
  predicate Readable(b: Bson)
    decreases b
  {
    match b
    case BUndefined => false
    case Symbol(_) => false
    case Code(_) => false
    case CodeWithScope(_, _) => false
    case DbPointer => false
    case Regex(_, options) => Ascending(options)
    case Array(elements) => ReadableItems(elements)
    case Document(entries) => !LooksWrapped(entries) && ReadableEntries(entries)
    case _ => true
  }

  predicate LooksWrapped(entries: seq<Entry>) { |entries| == 1 && WrapperOf(entries[0].key).Some? }

  predicate ReadableItems(elements: seq<Bson>)
    decreases elements
  {
    elements != [] ==> ReadableItems(elements[..|elements| - 1]) && Readable(elements[|elements| - 1])
  }

  predicate ReadableEntries(entries: seq<Entry>)
    decreases entries
  {
    entries != [] ==> ReadableEntries(entries[..|entries| - 1]) && Readable(entries[|entries| - 1].value)
  }

  /** The value with its whole numbers at the narrowest width and its NaNs made one: what
      reading gives for the value when it has been printed. */
  function Narrow(c: Codecs, b: Bson): Bson
    decreases b
  {
    match b
    case Int64(i) => if IsI32(i) then Int32(i) else b
    case BDouble(NaN(_)) => BDouble(TheNaN(c))
    case Array(elements) => Array(NarrowItems(c, elements))
    case Document(entries) => Document(NarrowEntries(c, entries))
    case _ => b
  }

  function TheNaN(c: Codecs): Double {
    match c.parseDouble("NaN")
    case Some(d) => d
    case None => NaN(0)
  }

  function NarrowItems(c: Codecs, elements: seq<Bson>): (r: seq<Bson>)
    ensures |r| == |elements|
    decreases elements
  {
    if elements == [] then []
    else NarrowItems(c, elements[..|elements| - 1]) + [Narrow(c, elements[|elements| - 1])]
  }

  function NarrowEntries(c: Codecs, entries: seq<Entry>): (r: seq<Entry>)
    ensures |r| == |entries|
    decreases entries
  {
    if entries == [] then []
    else
      var last := entries[|entries| - 1];
      NarrowEntries(c, entries[..|entries| - 1]) + [Entry(last.key, Narrow(c, last.value))]
  }

  lemma ReadOne(c: Codecs, w: Wrapper, value: Json)
    ensures Read(c, One(w, value)) == ReadWrapper(c, w, value)
  {
    NamesAreDistinct(w);
  }

  lemma GetOfTwo(a: Field, b: Field)
    requires a.key != b.key
    ensures Get([a, b], a.key) == Some(a.value) && Get([a, b], b.key) == Some(b.value)
  {
    assert [a, b][1..] == [b];
  }

  function RegexFields(pattern: string, options: string): Json {
    Obj([Field("pattern", Str(pattern)), Field("options", Str(options))])
  }

  lemma ReadsRegex(pattern: CText, options: CText)
    ensures ReadRegex(RegexFields(pattern, options)) == Some((pattern, SortedText(options)))
  {
    assert "pattern"[0] != "options"[0];
    GetOfTwo(Field("pattern", Str(pattern)), Field("options", Str(options)));
  }

  /** Sorting brings in no NUL. */
  function SortedText(options: CText): (r: CText)
    ensures r == SortChars(options)
  {
    SortAscends(options);
    assert forall ch :: ch in SortChars(options) ==> ch in multiset(SortChars(options));
    SortChars(options)
  }

  lemma ReadsBinary(c: Codecs, subtype: Octet, bytes: seq<nat>)
    requires Faithful(c)
    ensures ReadBinary(c, BinaryFields(c, subtype, bytes)) == Some((subtype, bytes))
  {
    assert |"base64"| != |"subType"|;
    GetOfTwo(Field("base64", Str(c.encode64(bytes))), Field("subType", Str(PrintHex(subtype))));
    HexRoundTrip(subtype);
  }

  function BinaryFields(c: Codecs, subtype: Octet, bytes: seq<nat>): Json {
    Obj([Field("base64", Str(c.encode64(bytes))), Field("subType", Str(PrintHex(subtype)))])
  }

  function TimestampFields(t: U32, i: U32): Json {
    Obj([Field("t", Number(Integer(t))), Field("i", Number(Integer(i)))])
  }

  lemma ReadsTimestamp(t: U32, i: U32)
    ensures ReadTimestamp(TimestampFields(t, i)) == Some((t, i))
  {
    assert "t"[0] != "i"[0];
    GetOfTwo(Field("t", Number(Integer(t))), Field("i", Number(Integer(i))));
  }

  lemma DoubleRoundTrip(c: Codecs, d: Double)
    requires Faithful(c)
    ensures Read(c, PrintDouble(d)) == Ok(Narrow(c, BDouble(d)))
  {
    match d
    case Finite(_) =>
    case NaN(_) => ReadOne(c, DoubleKey, Str("NaN"));
    case Infinite(negative) => ReadOne(c, DoubleKey, Str(if negative then "-Infinity" else "Infinity"));
  }

  lemma RegexRoundTrip(c: Codecs, pattern: CText, options: CText)
    ensures Read(c, One(RegexKey, RegexFields(pattern, options))) == Ok(Regex(pattern, SortedText(options)))
  {
    ReadsRegex(pattern, options);
    ReadOne(c, RegexKey, RegexFields(pattern, options));
  }

  lemma BinaryRoundTrip(c: Codecs, subtype: Octet, bytes: seq<nat>)
    requires Faithful(c)
    ensures Read(c, One(BinaryKey, BinaryFields(c, subtype, bytes))) == Ok(Binary(subtype, bytes))
  {
    ReadsBinary(c, subtype, bytes);
    ReadOne(c, BinaryKey, BinaryFields(c, subtype, bytes));
  }

  lemma TimestampRoundTrip(c: Codecs, t: U32, i: U32)
    ensures Read(c, One(TimestampKey, TimestampFields(t, i))) == Ok(Timestamp(t, i))
  {
    ReadsTimestamp(t, i);
    ReadOne(c, TimestampKey, TimestampFields(t, i));
  }

  lemma DateRoundTrip(c: Codecs, ms: I64)
    ensures Read(c, One(DateKey, Number(Integer(ms)))) == Ok(DateTime(ms))
  {
    ReadOne(c, DateKey, Number(Integer(ms)));
  }

  lemma OidRoundTrip(c: Codecs, o: nat)
    requires Faithful(c)
    ensures Read(c, One(OidKey, Str(c.printOid(o)))) == Ok(ObjectId(o))
  {
    ReadOne(c, OidKey, Str(c.printOid(o)));
  }

  lemma DecimalRoundTrip(c: Codecs, d: nat)
    requires Faithful(c)
    ensures Read(c, One(DecimalKey, Str(c.printDecimal(d)))) == Ok(Decimal128(d))
  {
    ReadOne(c, DecimalKey, Str(c.printDecimal(d)));
  }

  lemma ExtremeRoundTrip(c: Codecs)
    ensures Read(c, One(MinWrapper, Number(Integer(1)))) == Ok(MinKey)
    ensures Read(c, One(MaxWrapper, Number(Integer(1)))) == Ok(MaxKey)
  {
    ReadOne(c, MinWrapper, Number(Integer(1)));
    ReadOne(c, MaxWrapper, Number(Integer(1)));
  }

  /** Code prints as a document, and is read as one. */
  lemma CodeIsReadAsDocument(c: Codecs, b: Bson)
    requires b.Code? || b.CodeWithScope?
    ensures var r := Read(c, Print(c, b)); r.Ok? ==> r.value.Document?
  {
    assert "$code"[1] == 'c';
    assert WrapperOf("$code") == None;
  }

  lemma WrapperGivesNoDocument(c: Codecs, w: Wrapper, value: Json)
    ensures var r := ReadWrapper(c, w, value); r.Ok? ==> !r.value.Document?
  {
  }

  lemma WrapperReads(c: Codecs, fields: seq<Field>)
    requires |fields| == 1 && WrapperOf(fields[0].key).Some?
    ensures Read(c, Obj(fields)) == ReadWrapper(c, WrapperOf(fields[0].key).value, fields[0].value)
  {
  }

  /** A document that looks like a wrapper is not read as a document. */
  lemma WrappedIsNotADocument(c: Codecs, entries: seq<Entry>)
    requires LooksWrapped(entries)
    ensures var r := Read(c, Obj(PrintEntries(c, entries))); r.Ok? ==> !r.value.Document?
  {
    var fields := PrintEntries(c, entries);
    KeysStay(c, entries);
    WrapperReads(c, fields);
    WrapperGivesNoDocument(c, WrapperOf(fields[0].key).value, fields[0].value);
  }

  /** What reading gives for a printed value is the value, as narrow as it can be. */
  ghost predicate RoundTrips(c: Codecs, b: Bson) { Read(c, Print(c, b)) == Ok(Narrow(c, b)) }

  lemma PlainRoundTrip(c: Codecs, b: Bson)
    requires b.BNull? || b.Boolean? || b.String? || b.Int32? || b.Int64?
    ensures RoundTrips(c, b)
  {
  }

  /** A type that prints as another is read as the other. */
  lemma LossyRoundTrip(c: Codecs, b: Bson)
    requires b.BUndefined? || b.Symbol? || b.DbPointer? || b.Code? || b.CodeWithScope?
    ensures !RoundTrips(c, b)
  {
    if b.Code? || b.CodeWithScope? { CodeIsReadAsDocument(c, b); }
  }

  lemma RegexRoundTrips(c: Codecs, b: Bson)
    requires b.Regex?
    ensures RoundTrips(c, b) <==> Ascending(b.options)
  {
    RegexRoundTrip(c, b.pattern, b.options);
    SortAscends(b.options);
    if Ascending(b.options) { SortedStays(b.options); }
  }

  lemma WrapperRoundTrip(c: Codecs, b: Bson)
    requires Faithful(c)
    requires || b.Binary? || b.Timestamp? || b.BDouble? || b.ObjectId?
             || b.DateTime? || b.Decimal128? || b.MinKey? || b.MaxKey?
    ensures RoundTrips(c, b)
  {
    match b
    case Binary(subtype, bytes) => BinaryRoundTrip(c, subtype, bytes);
    case Timestamp(t, i) => TimestampRoundTrip(c, t, i);
    case BDouble(d) => DoubleRoundTrip(c, d);
    case ObjectId(o) => OidRoundTrip(c, o);
    case DateTime(ms) => DateRoundTrip(c, ms);
    case Decimal128(d) => DecimalRoundTrip(c, d);
    case MinKey => ExtremeRoundTrip(c);
    case MaxKey => ExtremeRoundTrip(c);
  }

  /** Everything that is not a container. */
  lemma ScalarRoundTrip(c: Codecs, b: Bson)
    requires Faithful(c) && !b.Array? && !b.Document?
    ensures RoundTrips(c, b) <==> Readable(b)
  {
    if b.BNull? || b.Boolean? || b.String? || b.Int32? || b.Int64? {
      PlainRoundTrip(c, b);
    } else if b.BUndefined? || b.Symbol? || b.DbPointer? || b.Code? || b.CodeWithScope? {
      LossyRoundTrip(c, b);
    } else if b.Regex? {
      RegexRoundTrips(c, b);
    } else {
      WrapperRoundTrip(c, b);
    }
  }

  lemma ArrayReads(c: Codecs, items: seq<Json>, elements: seq<Bson>)
    ensures Read(c, Arr(items)) == Ok(Array(elements)) <==> ReadItems(c, items) == Ok(elements)
  {
  }

  lemma DocumentReads(c: Codecs, fields: seq<Field>, entries: seq<Entry>)
    requires !(|fields| == 1 && WrapperOf(fields[0].key).Some?)
    ensures Read(c, Obj(fields)) == Ok(Document(entries)) <==> ReadFields(c, fields) == Ok(entries)
  {
  }

  lemma KeysStay(c: Codecs, entries: seq<Entry>)
    ensures |entries| == 1 ==> PrintEntries(c, entries)[0].key == entries[0].key
  {
  }

  ghost predicate ItemsRoundTrip(c: Codecs, elements: seq<Bson>) {
    ReadItems(c, PrintItems(c, elements)) == Ok(NarrowItems(c, elements))
  }

  ghost predicate EntriesRoundTrip(c: Codecs, entries: seq<Entry>) {
    ReadFields(c, PrintEntries(c, entries)) == Ok(NarrowEntries(c, entries))
  }

  lemma ArrayRoundTrip(c: Codecs, elements: seq<Bson>)
    ensures RoundTrips(c, Array(elements)) <==> ItemsRoundTrip(c, elements)
  {
    ArrayReads(c, PrintItems(c, elements), NarrowItems(c, elements));
  }

  lemma DocumentRoundTrip(c: Codecs, entries: seq<Entry>)
    ensures RoundTrips(c, Document(entries)) <==> !LooksWrapped(entries) && EntriesRoundTrip(c, entries)
  {
    KeysStay(c, entries);
    if LooksWrapped(entries) {
      WrappedIsNotADocument(c, entries);
    } else {
      DocumentReads(c, PrintEntries(c, entries), NarrowEntries(c, entries));
    }
  }

  /** What has been printed is read back, up to integer width and the identity of NaN, exactly
      when the value is one reading can give. */
  lemma {:induction false} PrintThenRead(c: Codecs, b: Bson)
    requires Faithful(c)
    ensures Read(c, Print(c, b)) == Ok(Narrow(c, b)) <==> Readable(b)
    decreases b
  {
    assert RoundTrips(c, b) <==> Readable(b) by {
      match b
      case Array(elements) =>
        PrintThenReadItems(c, elements);
        ArrayRoundTrip(c, elements);
      case Document(entries) =>
        PrintThenReadEntries(c, entries);
        DocumentRoundTrip(c, entries);
      case _ => ScalarRoundTrip(c, b);
    }
  }

  lemma {:induction false} PrintThenReadItems(c: Codecs, elements: seq<Bson>)
    requires Faithful(c)
    ensures ItemsRoundTrip(c, elements) <==> ReadableItems(elements)
    decreases elements
  {
    if elements == [] {
    } else {
      var front, last := elements[..|elements| - 1], elements[|elements| - 1];
      PrintThenReadItems(c, front);
      PrintThenRead(c, last);
      OneMoreItem(c, elements);
    }
  }

  lemma OneMoreItem(c: Codecs, elements: seq<Bson>)
    requires elements != []
    ensures var n := |elements| - 1;
            ItemsRoundTrip(c, elements) <==> ItemsRoundTrip(c, elements[..n]) && RoundTrips(c, elements[n])
  {
    var front, last := elements[..|elements| - 1], elements[|elements| - 1];
    ReadItemsSnoc(c, PrintItems(c, front), Print(c, last));
    SnocIsEqual(ReadItems(c, PrintItems(c, front)), NarrowItems(c, front), Read(c, Print(c, last)), Narrow(c, last));
  }

  function Both<T>(r: Result<seq<T>, string>, x: Result<T, string>): Result<seq<T>, string> {
    match r
    case Err(what) => Err(what)
    case Ok(s) =>
      match x
      case Err(what) => Err(what)
      case Ok(v) => Ok(s + [v])
  }

  lemma SnocIsEqual<T>(r: Result<seq<T>, string>, s: seq<T>, x: Result<T, string>, v: T)
    requires r.Ok? ==> |r.value| == |s|
    ensures Both(r, x) == Ok(s + [v]) <==> r == Ok(s) && x == Ok(v)
  {
    if Both(r, x) == Ok(s + [v]) {
      var got := r.value + [x.value];
      assert got == s + [v];
      assert r.value == got[..|s|] && s == (s + [v])[..|s|] && x.value == got[|s|] && v == (s + [v])[|s|];
    }
  }

  lemma ReadItemsSnoc(c: Codecs, items: seq<Json>, last: Json)
    ensures ReadItems(c, items + [last]) == Both(ReadItems(c, items), Read(c, last))
  {
    assert (items + [last])[..|items|] == items;
  }

  function Named(key: string, r: Result<Bson, string>): Result<Entry, string> {
    match r
    case Ok(b) => Ok(Entry(key, b))
    case Err(what) => Err(what)
  }

  lemma ReadFieldsSnoc(c: Codecs, fields: seq<Field>, last: Field)
    ensures ReadFields(c, fields + [last]) == Both(ReadFields(c, fields), Named(last.key, Read(c, last.value)))
  {
    assert (fields + [last])[..|fields|] == fields;
  }

  lemma {:induction false} PrintThenReadEntries(c: Codecs, entries: seq<Entry>)
    requires Faithful(c)
    ensures EntriesRoundTrip(c, entries) <==> ReadableEntries(entries)
    decreases entries
  {
    if entries == [] {
    } else {
      var front, last := entries[..|entries| - 1], entries[|entries| - 1];
      PrintThenReadEntries(c, front);
      PrintThenRead(c, last.value);
      OneMoreEntry(c, entries);
    }
  }

  lemma OneMoreEntry(c: Codecs, entries: seq<Entry>)
    requires entries != []
    ensures var n := |entries| - 1;
            EntriesRoundTrip(c, entries) <==> EntriesRoundTrip(c, entries[..n]) && RoundTrips(c, entries[n].value)
  {
    var front, last := entries[..|entries| - 1], entries[|entries| - 1];
    ReadFieldsSnoc(c, PrintEntries(c, front), Field(last.key, Print(c, last.value)));
    SnocIsEqual(ReadFields(c, PrintEntries(c, front)), NarrowEntries(c, front),
                Named(last.key, Read(c, Print(c, last.value))), Entry(last.key, Narrow(c, last.value)));
  }

  // ---------------------------------------------------------------------------
  // What reading gives
  // ---------------------------------------------------------------------------

  lemma WrapperIsReadable(c: Codecs, w: Wrapper, value: Json)
    ensures var r := ReadWrapper(c, w, value); r.Ok? ==> Readable(r.value)
  {
    if w == RegexKey && ReadRegex(value).Some? {
      SortAscends(AsText(Get(value.fields, "options")).value);
    }
  }

  lemma {:induction false} ReadIsReadable(c: Codecs, j: Json)
    ensures var r := Read(c, j); r.Ok? ==> Readable(r.value)
    decreases j
  {
    match j
    case Arr(items) => ReadItemsAreReadable(c, items);
    case Obj(fields) =>
      if |fields| == 1 && WrapperOf(fields[0].key).Some? {
        WrapperIsReadable(c, WrapperOf(fields[0].key).value, fields[0].value);
      } else {
        ReadFieldsAreReadable(c, fields);
        if |fields| == 1 { OneFieldKeepsKey(c, fields); }
      }
    case _ =>
  }

  lemma {:induction false} ReadItemsAreReadable(c: Codecs, items: seq<Json>)
    ensures var r := ReadItems(c, items); r.Ok? ==> ReadableItems(r.value)
    decreases items
  {
    if items == [] {
    } else {
      var front, last := items[..|items| - 1], items[|items| - 1];
      ReadItemsAreReadable(c, front);
      ReadIsReadable(c, last);
      var r := ReadItems(c, items);
      if r.Ok? { assert r.value[..|r.value| - 1] == ReadItems(c, front).value; }
    }
  }

  lemma {:induction false} ReadFieldsAreReadable(c: Codecs, fields: seq<Field>)
    ensures var r := ReadFields(c, fields); r.Ok? ==> ReadableEntries(r.value)
    decreases fields
  {
    if fields == [] {
    } else {
      var front, last := fields[..|fields| - 1], fields[|fields| - 1];
      ReadFieldsAreReadable(c, front);
      ReadIsReadable(c, last.value);
      var r := ReadFields(c, fields);
      if r.Ok? { assert r.value[..|r.value| - 1] == ReadFields(c, front).value; }
    }
  }

  lemma OneFieldKeepsKey(c: Codecs, fields: seq<Field>)
    requires |fields| == 1
    ensures var r := ReadFields(c, fields); r.Ok? ==> r.value[0].key == fields[0].key
  {
  }

  // ---------------------------------------------------------------------------
  // Narrowing keeps the value and its print
  // ---------------------------------------------------------------------------

  predicate IsInteger(b: Bson) { b.Int32? || b.Int64? }

  function IntegerOf(b: Bson): int
    requires IsInteger(b)
  {
    match b
    case Int32(i) => i
    case Int64(i) => i
  }

  /** Equal but for the width of an integer and the identity of a NaN. */
  predicate Same(a: Bson, b: Bson)
    decreases a
  {
    if IsInteger(a) && IsInteger(b) then IntegerOf(a) == IntegerOf(b)
    else if a.BDouble? && b.BDouble? then a == b || (a.double.NaN? && b.double.NaN?)
    else if a.Array? && b.Array? then SameItems(a.elements, b.elements)
    else if a.Document? && b.Document? then SameEntries(a.entries, b.entries)
    else a == b
  }

  predicate SameItems(a: seq<Bson>, b: seq<Bson>)
    decreases a
  {
    if a == [] || b == [] then a == b
    else SameItems(a[..|a| - 1], b[..|b| - 1]) && Same(a[|a| - 1], b[|b| - 1])
  }

  predicate SameEntries(a: seq<Entry>, b: seq<Entry>)
    decreases a
  {
    if a == [] || b == [] then a == b
    else
      && SameEntries(a[..|a| - 1], b[..|b| - 1])
      && a[|a| - 1].key == b[|b| - 1].key && Same(a[|a| - 1].value, b[|b| - 1].value)
  }

  lemma {:induction false} NarrowKeeps(c: Codecs, b: Bson)
    requires Faithful(c)
    ensures Same(b, Narrow(c, b)) && Print(c, Narrow(c, b)) == Print(c, b)
    decreases b
  {
    match b
    case Array(elements) => NarrowKeepsItems(c, elements);
    case Document(entries) => NarrowKeepsEntries(c, entries);
    case _ => NarrowKeepsScalar(c, b);
  }

  lemma NarrowKeepsScalar(c: Codecs, b: Bson)
    requires Faithful(c) && !b.Array? && !b.Document?
    ensures Same(b, Narrow(c, b)) && Print(c, Narrow(c, b)) == Print(c, b)
  {
  }

  lemma {:induction false} NarrowKeepsItems(c: Codecs, elements: seq<Bson>)
    requires Faithful(c)
    ensures SameItems(elements, NarrowItems(c, elements))
    ensures PrintItems(c, NarrowItems(c, elements)) == PrintItems(c, elements)
    decreases elements
  {
    if elements == [] {
    } else {
      var n := |elements| - 1;
      NarrowKeepsItems(c, elements[..n]);
      NarrowKeeps(c, elements[n]);
      assert NarrowItems(c, elements)[..n] == NarrowItems(c, elements[..n]);
    }
  }

  lemma {:induction false} NarrowKeepsEntries(c: Codecs, entries: seq<Entry>)
    requires Faithful(c)
    ensures SameEntries(entries, NarrowEntries(c, entries))
    ensures PrintEntries(c, NarrowEntries(c, entries)) == PrintEntries(c, entries)
    decreases entries
  {
    if entries == [] {
    } else {
      var n := |entries| - 1;
      NarrowKeepsEntries(c, entries[..n]);
      NarrowKeeps(c, entries[n].value);
      assert NarrowEntries(c, entries)[..n] == NarrowEntries(c, entries[..n]);
    }
  }

  /** Whatever the reader accepts: printing the result and reading it again succeeds, gives
      the same value, and prints as it did. */
  lemma ReadPrintRead(c: Codecs, j: Json)
    requires Faithful(c)
    ensures var first := Read(c, j);
            first.Ok? ==>
              var again := Read(c, Print(c, first.value));
              again.Ok? && Same(first.value, again.value) && Print(c, again.value) == Print(c, first.value)
  {
    var first := Read(c, j);
    if first.Ok? {
      ReadIsReadable(c, j);
      PrintThenRead(c, first.value);
      NarrowKeeps(c, first.value);
    }
  }
}
