/**
 Extended JSON by its literal forms: what each JSON value is read as, and what each BSON
 value is printed as, with every name, field and bound written out.
 */
module WireForms {
  import opened Outcomes
  import opened JsonText
  import opened ExtendedJson

  /** An object of one field. */
  function Lone(key: string, value: Json): Json { Obj([Field(key, value)]) }

  /** The first field of that name has this value. */
  ghost predicate Holds(fields: seq<Field>, key: string, value: Json) {
    exists i :: 0 <= i < |fields| && fields[i] == Field(key, value) && forall j :: 0 <= j < i ==> fields[j].key != key
  }

  ghost predicate Lacks(fields: seq<Field>, key: string) { forall i :: 0 <= i < |fields| ==> fields[i].key != key }

  lemma {:induction false} GetMeaning(fields: seq<Field>, key: string)
    ensures match Get(fields, key)
            case Some(value) => Holds(fields, key, value)
            case None => Lacks(fields, key)
  {
    if fields == [] {
    } else if fields[0].key == key {
      assert fields[0] == Field(key, fields[0].value);
    } else {
      GetMeaning(fields[1..], key);
      forall i | 0 < i < |fields| ensures fields[i] == fields[1..][i - 1] {}
      if Get(fields, key).Some? {
        var value := Get(fields, key).value;
        var i :| 0 <= i < |fields[1..]| && fields[1..][i] == Field(key, value)
                 && forall j :: 0 <= j < i ==> fields[1..][j].key != key;
        assert fields[i + 1] == Field(key, value);
      }
    }
  }

  lemma HoldsIsGet(fields: seq<Field>, key: string, value: Json)
    requires Holds(fields, key, value)
    ensures Get(fields, key) == Some(value)
  {
    GetMeaning(fields, key);
    var i :| 0 <= i < |fields| && fields[i] == Field(key, value) && forall j :: 0 <= j < i ==> fields[j].key != key;
  }

  lemma LacksIsGet(fields: seq<Field>, key: string)
    requires Lacks(fields, key)
    ensures Get(fields, key) == None
  {
    GetMeaning(fields, key);
  }

  // ---------------------------------------------------------------------------
  // Reading
  // ---------------------------------------------------------------------------

  lemma ReadsPlain(c: Codecs, s: string, i: int, bits: nat)
    ensures Read(c, Null) == Ok(BNull)
    ensures Read(c, Bool(true)) == Ok(Boolean(true)) && Read(c, Bool(false)) == Ok(Boolean(false))
    ensures Read(c, Str(s)) == Ok(String(s))
    ensures Read(c, Number(Float(bits))) == Ok(BDouble(Finite(bits)))
    ensures Read(c, Number(Integer(i))) ==
            if -2147483648 <= i <= 2147483647 then Ok(Int32(i))
            else if -9223372036854775808 <= i <= 9223372036854775807 then Ok(Int64(i))
            else Ok(BDouble(Finite(c.nearest(i))))
  {
  }

  /** The two integers by name: the text is parsed at the width the name says. */
  lemma ReadsIntegers(c: Codecs, s: string)
    ensures Read(c, Lone("$numberLong", Str(s))) ==
            match c.parseInteger(s)
            case Some(i) =>
              if -9223372036854775808 <= i <= 9223372036854775807 then Ok(Int64(i)) else Err("$numberLong")
            case None => Err("$numberLong")
    ensures Read(c, Lone("$numberInt", Str(s))) ==
            match c.parseInteger(s)
            case Some(i) => if -2147483648 <= i <= 2147483647 then Ok(Int32(i)) else Err("$numberInt")
            case None => Err("$numberInt")
  {
    NamesAreDistinct(LongKey);
    NamesAreDistinct(IntKey);
  }

  /** The other three given by a text. */
  lemma ReadsTexts(c: Codecs, s: string)
    ensures Read(c, Lone("$oid", Str(s))) ==
            match c.parseOid(s) case Some(o) => Ok(ObjectId(o)) case None => Err("$oid")
    ensures Read(c, Lone("$numberDouble", Str(s))) ==
            match c.parseDouble(s) case Some(d) => Ok(BDouble(d)) case None => Err("$numberDouble")
    ensures Read(c, Lone("$numberDecimal", Str(s))) ==
            match c.parseDecimal(s) case Some(d) => Ok(Decimal128(d)) case None => Err("$numberDecimal")
  {
    NamesAreDistinct(OidKey);
    NamesAreDistinct(DoubleKey);
    NamesAreDistinct(DecimalKey);
  }

  /** None of the five takes anything but a text. */
  lemma TextsOnly(c: Codecs, value: Json)
    requires !value.Str?
    ensures Read(c, Lone("$numberLong", value)) == Err("$numberLong")
    ensures Read(c, Lone("$numberInt", value)) == Err("$numberInt")
    ensures Read(c, Lone("$oid", value)) == Err("$oid")
    ensures Read(c, Lone("$numberDouble", value)) == Err("$numberDouble")
    ensures Read(c, Lone("$numberDecimal", value)) == Err("$numberDecimal")
  {
    NamesAreDistinct(LongKey);
    NamesAreDistinct(IntKey);
    NamesAreDistinct(OidKey);
    NamesAreDistinct(DoubleKey);
    NamesAreDistinct(DecimalKey);
  }

  /** A date by its milliseconds, by its text, or by its milliseconds as a text. */
  lemma ReadsDates(c: Codecs, i: int, s: string, inner: seq<Field>)
    ensures Read(c, Lone("$date", Number(Integer(i)))) ==
            if -9223372036854775808 <= i <= 9223372036854775807 then Ok(DateTime(i)) else Err("$date")
    ensures Read(c, Lone("$date", Str(s))) ==
            match c.parseDate(s) case Some(ms) => Ok(DateTime(ms)) case None => Err("$date")
    ensures Holds(inner, "$numberLong", Str(s)) ==>
              Read(c, Lone("$date", Obj(inner))) ==
              match c.parseInteger(s)
              case Some(ms) =>
                if -9223372036854775808 <= ms <= 9223372036854775807 then Ok(DateTime(ms)) else Err("$date")
              case None => Err("$date")
  {
    NamesAreDistinct(DateKey);
    if Holds(inner, "$numberLong", Str(s)) { HoldsIsGet(inner, "$numberLong", Str(s)); }
  }

  /** Nothing else is a date. */
  lemma DatesOnly(c: Codecs, value: Json)
    requires !(value.Number? && value.number.Integer?) && !value.Str?
    requires value.Obj? ==> forall s :: !Holds(value.fields, "$numberLong", Str(s))
    ensures Read(c, Lone("$date", value)) == Err("$date")
  {
    NamesAreDistinct(DateKey);
    if value.Obj? { GetMeaning(value.fields, "$numberLong"); }
  }

  /** Binary data: base 64, generic unless a subtype of two hexadecimal digits says otherwise. */
  lemma ReadsBinaryData(c: Codecs, inner: seq<Field>, text: string)
    requires Holds(inner, "base64", Str(text)) && c.decode64(text).Some?
    ensures Lacks(inner, "subType") ==> Read(c, Lone("$binary", Obj(inner))) == Ok(Binary(0, c.decode64(text).value))
    ensures forall n: Octet :: Holds(inner, "subType", Str(PrintHex(n))) ==>
              Read(c, Lone("$binary", Obj(inner))) == Ok(Binary(n, c.decode64(text).value))
  {
    NamesAreDistinct(BinaryKey);
    HoldsIsGet(inner, "base64", Str(text));
    if Lacks(inner, "subType") { LacksIsGet(inner, "subType"); }
    forall n: Octet | Holds(inner, "subType", Str(PrintHex(n)))
      ensures Read(c, Lone("$binary", Obj(inner))) == Ok(Binary(n, c.decode64(text).value))
    {
      HoldsIsGet(inner, "subType", Str(PrintHex(n)));
      HexRoundTrip(n);
    }
  }

  /** A subtype is two hexadecimal digits, the high one first; either case is read, and the
      lower is written. */
  lemma HexForms(high: nat, low: nat)
    requires high < 16 && low < 16
    ensures ParseHex(["0123456789abcdef"[high], "0123456789abcdef"[low]]) == Some(16 * high + low)
    ensures ParseHex(["0123456789ABCDEF"[high], "0123456789ABCDEF"[low]]) == Some(16 * high + low)
    ensures PrintHex(16 * high + low) == ["0123456789abcdef"[high], "0123456789abcdef"[low]]
  {
    DigitForms(high);
    DigitForms(low);
    assert (16 * high + low) / 16 == high && (16 * high + low) % 16 == low;
  }

  lemma DigitForms(n: nat)
    requires n < 16
    ensures FromHexDigit("0123456789abcdef"[n]) == Some(n) && FromHexDigit("0123456789ABCDEF"[n]) == Some(n)
  {
  }

  predicate IsHexDigit(ch: char) { '0' <= ch <= '9' || 'a' <= ch <= 'f' || 'A' <= ch <= 'F' }

  ghost predicate IsSubtype(sub: Json) {
    sub.Str? && |sub.text| == 2 && IsHexDigit(sub.text[0]) && IsHexDigit(sub.text[1])
  }

  /** Nothing else is binary data: what is not an object, base 64 that is missing, no text or
      malformed, and a subtype that is not a text of two hexadecimal digits. */
  lemma BinaryDataOnly(c: Codecs, value: Json, sub: Json)
    requires || !value.Obj?
             || (forall text :: Holds(value.fields, "base64", Str(text)) ==> c.decode64(text).None?)
             || (Holds(value.fields, "subType", sub) && !IsSubtype(sub))
    ensures Read(c, Lone("$binary", value)) == Err("$binary")
  {
    NamesAreDistinct(BinaryKey);
    if value.Obj? {
      GetMeaning(value.fields, "base64");
      if Holds(value.fields, "subType", sub) { HoldsIsGet(value.fields, "subType", sub); }
    }
  }

  /** A regular expression: exactly a pattern and options, which come out in order. */
  lemma ReadsRegexParts(c: Codecs, inner: seq<Field>, pattern: CText, options: CText)
    requires |inner| == 2 && Holds(inner, "pattern", Str(pattern)) && Holds(inner, "options", Str(options))
    ensures var r := Read(c, Lone("$regularExpression", Obj(inner)));
            && r.Ok? && r.value.Regex? && r.value.pattern == pattern
            && Ascending(r.value.options) && multiset(r.value.options) == multiset(options)
  {
    NamesAreDistinct(RegexKey);
    HoldsIsGet(inner, "pattern", Str(pattern));
    HoldsIsGet(inner, "options", Str(options));
    SortAscends(options);
    assert SortedText(options) == SortChars(options);
  }

  /** A timestamp: exactly `t`, the time, and `i`, the increment, whole numbers of 32 bits. */
  lemma ReadsTimestampParts(c: Codecs, inner: seq<Field>, t: int, i: int)
    requires |inner| == 2 && Holds(inner, "t", Number(Integer(t))) && Holds(inner, "i", Number(Integer(i)))
    ensures Read(c, Lone("$timestamp", Obj(inner))) ==
            if 0 <= t <= 4294967295 && 0 <= i <= 4294967295 then Ok(Timestamp(t, i)) else Err("$timestamp")
  {
    NamesAreDistinct(TimestampKey);
    HoldsIsGet(inner, "t", Number(Integer(t)));
    HoldsIsGet(inner, "i", Number(Integer(i)));
  }

  /** Nothing else is a regular expression, a NUL in either part included. */
  lemma RegexOnly(c: Codecs, value: Json)
    requires value.Obj? && |value.fields| == 2 ==>
               forall pattern, options ::
                 Holds(value.fields, "pattern", Str(pattern)) && Holds(value.fields, "options", Str(options)) ==>
                   !NoNul(pattern) || !NoNul(options)
    ensures Read(c, Lone("$regularExpression", value)) == Err("$regularExpression")
  {
    NamesAreDistinct(RegexKey);
    if value.Obj? {
      GetMeaning(value.fields, "pattern");
      GetMeaning(value.fields, "options");
      var options := AsText(Get(value.fields, "options"));
      if options.Some? { SortedNul(options.value); }
    }
  }

  lemma SortedNul(options: string)
    ensures NoNul(SortChars(options)) <==> NoNul(options)
  {
    SortAscends(options);
    assert '\0' in SortChars(options) <==> '\0' in multiset(SortChars(options));
    assert '\0' in options <==> '\0' in multiset(options);
  }

  /** Nothing else is a timestamp. */
  lemma TimestampOnly(c: Codecs, value: Json)
    requires value.Obj? && |value.fields| == 2 ==>
               || (forall t :: !Holds(value.fields, "t", Number(Integer(t))))
               || (forall i :: !Holds(value.fields, "i", Number(Integer(i))))
    ensures Read(c, Lone("$timestamp", value)) == Err("$timestamp")
  {
    NamesAreDistinct(TimestampKey);
    if value.Obj? {
      GetMeaning(value.fields, "t");
      GetMeaning(value.fields, "i");
    }
  }

  lemma ReadsExtremes(c: Codecs, value: Json)
    ensures Read(c, Lone("$minKey", value)) == Ok(MinKey) && Read(c, Lone("$maxKey", value)) == Ok(MaxKey)
  {
    NamesAreDistinct(MinWrapper);
    NamesAreDistinct(MaxWrapper);
  }

  /** The eleven names. */
  predicate IsWrapperName(key: string) {
    || key == "$oid" || key == "$date" || key == "$numberLong" || key == "$numberInt" || key == "$numberDouble"
    || key == "$numberDecimal" || key == "$binary" || key == "$regularExpression" || key == "$timestamp"
    || key == "$minKey" || key == "$maxKey"
  }

  lemma NamesAreThese(key: string)
    ensures WrapperOf(key).Some? <==> IsWrapperName(key)
  {
  }

  /** What reading a list gives, item by item; the first that cannot be read fails it. */
  ghost predicate ReadEach<T>(c: Codecs, values: seq<Json>, r: Result<seq<T>, string>, of: T -> Bson) {
    match r
    case Ok(read) =>
      |read| == |values| && forall i :: 0 <= i < |values| ==> Read(c, values[i]) == Ok(of(read[i]))
    case Err(what) =>
      exists i :: 0 <= i < |values| && Read(c, values[i]) == Err(what)
                  && forall j :: 0 <= j < i ==> Read(c, values[j]).Ok?
  }

  lemma EachRefused<T>(c: Codecs, values: seq<Json>, what: string, of: T -> Bson)
    requires values != [] && ReadEach(c, values[..|values| - 1], Err(what), of)
    ensures ReadEach(c, values, Err(what), of)
  {
    var front := values[..|values| - 1];
    var i :| 0 <= i < |front| && Read(c, front[i]) == Err(what) && forall j :: 0 <= j < i ==> Read(c, front[j]).Ok?;
    forall j | 0 <= j < i ensures Read(c, values[j]).Ok? { assert front[j] == values[j]; }
    assert Read(c, values[i]) == Err(what);
  }

  lemma EachNext<T>(c: Codecs, values: seq<Json>, front: seq<T>, of: T -> Bson, last: T)
    requires values != [] && ReadEach(c, values[..|values| - 1], Ok(front), of)
    ensures Read(c, values[|values| - 1]) == Ok(of(last)) ==> ReadEach(c, values, Ok(front + [last]), of)
    ensures var r := Read(c, values[|values| - 1]); r.Err? ==> ReadEach(c, values, Err(r.error), of)
  {
    var n := |values| - 1;
    forall i | 0 <= i < n ensures Read(c, values[i]) == Ok(of(front[i])) { assert values[..n][i] == values[i]; }
  }

  function Whole(): Bson -> Bson { (b: Bson) => b }

  lemma {:induction false} ReadsItems(c: Codecs, items: seq<Json>)
    ensures ReadEach(c, items, ReadItems(c, items), Whole())
  {
    if items == [] {
    } else {
      var n := |items| - 1;
      ReadsItems(c, items[..n]);
      var front, last := ReadItems(c, items[..n]), Read(c, items[n]);
      if front.Err? {
        EachRefused(c, items, front.error, Whole());
      } else {
        EachNext(c, items, front.value, Whole(), if last.Ok? then last.value else BNull);
      }
    }
  }

  function ValuesOf(fields: seq<Field>): (r: seq<Json>)
    ensures |r| == |fields| && forall i :: 0 <= i < |r| ==> r[i] == fields[i].value
  {
    seq(|fields|, i requires 0 <= i < |fields| => fields[i].value)
  }

  function ValueOf(): Entry -> Bson { (e: Entry) => e.value }

  lemma {:induction false} ReadsFields(c: Codecs, fields: seq<Field>)
    ensures ReadEach(c, ValuesOf(fields), ReadFields(c, fields), ValueOf())
    ensures var r := ReadFields(c, fields);
            r.Ok? ==> forall i :: 0 <= i < |fields| ==> r.value[i].key == fields[i].key
  {
    if fields == [] {
    } else {
      var n := |fields| - 1;
      ReadsFields(c, fields[..n]);
      assert ValuesOf(fields)[..n] == ValuesOf(fields[..n]);
      var front, last := ReadFields(c, fields[..n]), Read(c, fields[n].value);
      if front.Err? {
        EachRefused(c, ValuesOf(fields), front.error, ValueOf());
      } else {
        EachNext(c, ValuesOf(fields), front.value, ValueOf(),
                 Entry(fields[n].key, if last.Ok? then last.value else BNull));
      }
    }
  }

  /** An array is read item by item. */
  lemma ReadsArray(c: Codecs, items: seq<Json>)
    ensures var r := Read(c, Arr(items));
            && (r.Ok? ==> r.value.Array? && ReadEach(c, items, Ok(r.value.elements), Whole()))
            && (r.Err? ==> ReadEach(c, items, Err(r.error), Whole()))
  {
    ReadsItems(c, items);
  }

  /** An object that is not one field with such a name is read field by field, under its keys. */
  lemma ReadsDocument(c: Codecs, fields: seq<Field>)
    requires !(|fields| == 1 && IsWrapperName(fields[0].key))
    ensures var r := Read(c, Obj(fields));
            && (r.Ok? ==> r.value.Document? && ReadEach(c, ValuesOf(fields), Ok(r.value.entries), ValueOf())
                          && forall i :: 0 <= i < |fields| ==> r.value.entries[i].key == fields[i].key)
            && (r.Err? ==> ReadEach(c, ValuesOf(fields), Err(r.error), ValueOf()))
  {
    ReadsFields(c, fields);
    if |fields| == 1 { NamesAreThese(fields[0].key); }
  }

  // ---------------------------------------------------------------------------
  // Printing
  // ---------------------------------------------------------------------------

  lemma PrintsPlain(c: Codecs, s: string, n: I32, m: I64)
    ensures Print(c, BNull) == Null && Print(c, BUndefined) == Null && Print(c, DbPointer) == Null
    ensures Print(c, Boolean(true)) == Bool(true) && Print(c, Boolean(false)) == Bool(false)
    ensures Print(c, String(s)) == Str(s) && Print(c, Symbol(s)) == Str(s)
    ensures Print(c, Int32(n)) == Number(Integer(n)) && Print(c, Int64(m)) == Number(Integer(m))
  {
  }

  lemma PrintsDoubles(c: Codecs, bits: nat)
    ensures Print(c, BDouble(Finite(bits))) == Number(Float(bits))
    ensures Print(c, BDouble(NaN(bits))) == Lone("$numberDouble", Str("NaN"))
    ensures Print(c, BDouble(Infinite(false))) == Lone("$numberDouble", Str("Infinity"))
    ensures Print(c, BDouble(Infinite(true))) == Lone("$numberDouble", Str("-Infinity"))
  {
  }

  lemma PrintsTexts(c: Codecs, o: nat, s: string)
    ensures Print(c, ObjectId(o)) == Lone("$oid", Str(c.printOid(o)))
    ensures Print(c, Decimal128(o)) == Lone("$numberDecimal", Str(c.printDecimal(o)))
    ensures Print(c, Code(s)) == Lone("$code", Str(s))
  {
  }

  lemma PrintsNumbers(c: Codecs, ms: I64)
    ensures Print(c, DateTime(ms)) == Lone("$date", Number(Integer(ms)))
    ensures Print(c, MinKey) == Lone("$minKey", Number(Integer(1)))
    ensures Print(c, MaxKey) == Lone("$maxKey", Number(Integer(1)))
  {
  }

  lemma PrintsBinaryData(c: Codecs, subtype: Octet, bytes: seq<nat>)
    ensures Print(c, Binary(subtype, bytes)) ==
            Lone("$binary", Obj([Field("base64", Str(c.encode64(bytes))), Field("subType", Str(PrintHex(subtype)))]))
  {
  }

  lemma PrintsRegexParts(c: Codecs, pattern: CText, options: CText)
    ensures Print(c, Regex(pattern, options)) ==
            Lone("$regularExpression", Obj([Field("pattern", Str(pattern)), Field("options", Str(options))]))
  {
  }

  lemma PrintsTimestampParts(c: Codecs, t: U32, i: U32)
    ensures Print(c, Timestamp(t, i)) ==
            Lone("$timestamp", Obj([Field("t", Number(Integer(t))), Field("i", Number(Integer(i)))]))
  {
  }

  /** Arrays and documents are printed element by element, a document's under their keys. */
  lemma {:induction false} PrintsItems(c: Codecs, elements: seq<Bson>)
    ensures var j := Print(c, Array(elements));
            j.Arr? && |j.items| == |elements| && forall i :: 0 <= i < |elements| ==> j.items[i] == Print(c, elements[i])
  {
    if elements == [] {
    } else {
      PrintsItems(c, elements[..|elements| - 1]);
    }
  }

  lemma {:induction false} PrintsEntries(c: Codecs, entries: seq<Entry>)
    ensures var fields := PrintEntries(c, entries);
            |fields| == |entries|
            && forall i :: 0 <= i < |entries| ==> fields[i] == Field(entries[i].key, Print(c, entries[i].value))
  {
    if entries == [] {
    } else {
      PrintsEntries(c, entries[..|entries| - 1]);
    }
  }

  lemma PrintsDocument(c: Codecs, entries: seq<Entry>, code: string)
    ensures var j := Print(c, Document(entries));
            && j.Obj? && |j.fields| == |entries|
            && forall i :: 0 <= i < |entries| ==> j.fields[i] == Field(entries[i].key, Print(c, entries[i].value))
    ensures Print(c, CodeWithScope(code, entries)) ==
            Obj([Field("$code", Str(code)), Field("$scope", Print(c, Document(entries)))])
  {
    PrintsEntries(c, entries);
  }
}
