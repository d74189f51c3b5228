/** Type descriptors and the meaning of a schema string such as
    "ref|list|ref|string", independent of any cache: what ParseType in
    LibDat/Types/TypeFactory.cs returns once the eight primitives are loaded. */
module Schema {
  import opened Errors

  /** BaseDataType, PointerDataType and ListDataType: a name, the width of an
      inline occurrence (-1 when variable) and the width used when the type is
      the target of a pointer. */
  datatype DataType =
    | ValueType(name: string, width: int, pointerWidth: int)
    | PointerType(name: string, width: int, pointerWidth: int, refType: DataType)
    | ListType(name: string, width: int, pointerWidth: int, listType: DataType)

  /** The primitive descriptors LoadValueTypes installs, by name: each carries
      its own name and pointer width 4. */
  function Primitive(name: string): (r: Option<DataType>)
    ensures r.Some? ==> r.value == ValueType(name, r.value.width, 4)
    ensures r.Some? ==> name != [] && AllWord(name) && |name| <= 6
  {
    if name == "bool" then Some(ValueType("bool", 1, 4))
    else if name == "byte" then Some(ValueType("byte", 1, 4))
    else if name == "short" then Some(ValueType("short", 2, 4))
    else if name == "int" then Some(ValueType("int", 4, 4))
    else if name == "uint" then Some(ValueType("uint", 4, 4))
    else if name == "long" then Some(ValueType("long", 8, 4))
    else if name == "ulong" then Some(ValueType("ulong", 8, 4))
    else if name == "string" then Some(ValueType("string", -1, 4))
    else None
  }

  const PrimitiveNames: set<string> := {"bool", "byte", "short", "int", "uint", "long", "ulong", "string"}

  /** The table LoadValueTypes installs: exactly the eight primitives. */
  function PrimitiveTable(): (m: map<string, DataType>)
    ensures m.Keys == PrimitiveNames
    ensures forall k | k in m :: Primitive(k) == Some(m[k])
  {
    assert forall k :: Primitive(k).Some? <==> k in PrimitiveNames by {
      forall k
        ensures Primitive(k).Some? <==> k in PrimitiveNames
      {
        PrimitiveNamesExact(k);
      }
    }
    map k | k in PrimitiveNames && Primitive(k).Some? :: Primitive(k).value
  }

  /** Only the eight names are primitives. */
  lemma PrimitiveNamesExact(name: string)
    ensures Primitive(name).Some? <==> name in PrimitiveNames
  {
  }

  /** The widths of the eight primitives. */
  lemma PrimitiveWidths()
    ensures Primitive("bool") == Some(ValueType("bool", 1, 4))
    ensures Primitive("byte") == Some(ValueType("byte", 1, 4))
    ensures Primitive("short") == Some(ValueType("short", 2, 4))
    ensures Primitive("int") == Some(ValueType("int", 4, 4))
    ensures Primitive("uint") == Some(ValueType("uint", 4, 4))
    ensures Primitive("long") == Some(ValueType("long", 8, 4))
    ensures Primitive("ulong") == Some(ValueType("ulong", 8, 4))
    ensures Primitive("string") == Some(ValueType("string", -1, 4))
  {
  }

  /** A character of the regex class \w, restricted to ASCII. */
  predicate IsWordChar(c: char) {
    'a' <= c <= 'z' || 'A' <= c <= 'Z' || '0' <= c <= '9' || c == '_'
  }

  predicate AllWord(s: string) {
    forall i | 0 <= i < |s| :: IsWordChar(s[i])
  }

  /** Length of the longest run of word characters at the start of `s`. */
  function WordRun(s: string): (k: nat)
    ensures k <= |s|
    ensures forall i | 0 <= i < k :: IsWordChar(s[i])
    ensures k < |s| ==> !IsWordChar(s[k])
  {
    if s == [] || !IsWordChar(s[0]) then 0 else 1 + WordRun(s[1..])
  }

  /** How the pattern (\w+\|)?(.+) splits a nonempty schema: a word prefix
      with its bar and the rest, or no prefix and the whole string. */
  datatype Split = Plain | Prefixed(word: string, rest: string)

  function SplitType(s: string): (sp: Split)
    ensures sp.Prefixed? ==> sp.word != [] && AllWord(sp.word) && sp.rest != []
    ensures sp.Prefixed? ==> s == sp.word + "|" + sp.rest
  {
    var k := WordRun(s);
    if 0 < k && k + 1 < |s| && s[k] == '|' then
      assert s == s[..k] + "|" + s[k + 1..];
      Prefixed(s[..k], s[k + 1..])
    else Plain
  }

  /** The pattern takes a prefix exactly when the string is a nonempty word, a
      bar and a nonempty rest; the prefix is then that word. */
  lemma SplitPrefixed(word: string, rest: string)
    requires word != [] && AllWord(word) && rest != []
    ensures SplitType(word + "|" + rest) == Prefixed(word, rest)
  {
    var s := word + "|" + rest;
    assert s[|word|] == '|';
    assert s[..|word|] == word && s[|word| + 1..] == rest;
  }

  /** A nonempty word parses as a primitive name. */
  lemma ParseWord(s: string)
    requires s != [] && AllWord(s)
    ensures Parse(s) == PrimitiveOf(s)
  {
    SplitAllWord(s);
  }

  /** A string of word characters only has no prefix. */
  lemma SplitAllWord(s: string)
    requires AllWord(s)
    ensures SplitType(s) == Plain
  {
  }

  /** ParseValueType against the primitive table: the whole string must be
      word characters (^(\w+)$), then it must name a primitive. */
  function PrimitiveOf(s: string): (r: Result<DataType>)
    ensures r.Success? <==> Primitive(s).Some?
    ensures r.Success? ==> Primitive(s) == Some(r.value) && r.value.name == s
  {
    if s != [] && AllWord(s) then
      match Primitive(s)
      case Some(d) => Success(d)
      case None => Failure(UnknownDataType)
    else Failure(InvalidValueType)
  }

  /** The schema strings "ref|X" and "list|X". */
  function RefOf(x: string): string { "ref" + "|" + x }

  function ListOf(x: string): string { "list" + "|" + x }

  /** The descriptors ParseType can produce: a loaded primitive, or a pointer or
      list over such a descriptor, named by its full schema string, with the
      widths ParseType gives them. */
  predicate WellFormed(d: DataType) {
    match d
    case ValueType(name, _, _) => Primitive(name) == Some(d)
    case PointerType(name, width, pointerWidth, target) =>
      WellFormed(target) && name == RefOf(target.name) && width == target.pointerWidth && pointerWidth == 4
    case ListType(name, width, pointerWidth, elem) =>
      WellFormed(elem) && name == ListOf(elem.name) && width == -1 && pointerWidth == 8
  }

  /** The descriptor a schema string denotes, named by the whole string. */
  function Parse(s: string): (r: Result<DataType>)
    ensures r.Success? ==> r.value.name == s
    decreases |s|
  {
    if s == [] then Failure(InvalidTypeDefinition)
    else match SplitType(s)
      case Plain => PrimitiveOf(s)
      case Prefixed(word, rest) =>
        if word == "ref" then
          var target :- Parse(rest);
          Success(PointerType(s, target.pointerWidth, 4, target))
        else if word == "list" then
          var elem :- Parse(rest);
          Success(ListType(s, -1, 8, elem))
        else Failure(UnknownComplexType)
  }

  /** Every successful parse is well formed. */
  lemma {:induction false} ParseWellFormed(s: string)
    requires Parse(s).Success?
    ensures WellFormed(Parse(s).value)
    decreases |s|
  {
    if SplitType(s).Plain? {
      assert Parse(s) == PrimitiveOf(s);
    } else {
      var Prefixed(word, rest) := SplitType(s);
      ParsePrefixed(s);
      ParseWellFormed(rest);
      if word == "ref" {
        assert s == RefOf(rest);
        ParseRef(rest);
      } else {
        assert s == ListOf(rest);
        ParseList(rest);
      }
    }
  }

  /** Every well-formed descriptor is what its own name parses to: together with
      ParseWellFormed and the postcondition of Parse, parsing is a bijection between the accepted
      schema strings and the well-formed descriptors. */
  lemma {:induction false} ParseName(d: DataType)
    requires WellFormed(d)
    ensures Parse(d.name) == Success(d)
  {
    match d
    case ValueType(name, _, _) =>
      SplitAllWord(name);
    case PointerType(name, _, _, target) =>
      ParseName(target);
      ParseRef(target.name);
    case ListType(name, _, _, elem) =>
      ParseName(elem);
      ParseList(elem.name);
  }

  /** "ref|X" points to what X denotes: its width is X's pointer width and its
      own pointer width is 4; a failure of X is the failure of "ref|X". */
  lemma ParseRef(x: string)
    ensures x != [] && Parse(x).Failure? ==> Parse(RefOf(x)) == Parse(x)
    ensures Parse(x).Success? ==>
      Parse(RefOf(x)) == Success(PointerType(RefOf(x), Parse(x).value.pointerWidth, 4, Parse(x).value))
  {
    if x != [] {
      assert AllWord("ref");
      SplitPrefixed("ref", x);
    }
  }

  /** "list|X" is a list of what X denotes, of variable width and pointer
      width 8; a failure of X is the failure of "list|X". */
  lemma ParseList(x: string)
    ensures x != [] && Parse(x).Failure? ==> Parse(ListOf(x)) == Parse(x)
    ensures Parse(x).Success? ==>
      Parse(ListOf(x)) == Success(ListType(ListOf(x), -1, 8, Parse(x).value))
  {
    if x != [] {
      assert AllWord("list");
      SplitPrefixed("list", x);
    }
  }

  /** One step of parsing a prefixed schema: "ref" and "list" parse the rest
      and fail as it does, any other word fails with UnknownComplexType; the
      strings stored along the way are this one and those of the rest. */
  lemma ParsePrefixed(s: string)
    requires SplitType(s).Prefixed?
    ensures Chain(s) == {s} + Chain(SplitType(s).rest)
    ensures var Prefixed(word, rest) := SplitType(s);
      && (word == "ref" ==> Parse(rest).Failure? ==> Parse(s) == Parse(rest))
      && (word == "ref" ==> Parse(rest).Success? ==>
            Parse(s) == Success(PointerType(s, Parse(rest).value.pointerWidth, 4, Parse(rest).value)))
      && (word == "list" ==> Parse(rest).Failure? ==> Parse(s) == Parse(rest))
      && (word == "list" ==> Parse(rest).Success? ==> Parse(s) == Success(ListType(s, -1, 8, Parse(rest).value)))
      && (word != "ref" && word != "list" ==> Parse(s) == Failure(UnknownComplexType))
  {
  }

  /** The four ways a schema string is rejected. */
  lemma ParseRejects(s: string)
    ensures s == [] ==> Parse(s) == Failure(InvalidTypeDefinition)
    ensures s != [] && SplitType(s) == Plain && !AllWord(s) ==> Parse(s) == Failure(InvalidValueType)
    ensures s != [] && AllWord(s) && Primitive(s).None? ==> Parse(s) == Failure(UnknownDataType)
    ensures SplitType(s).Prefixed? && SplitType(s).word != "ref" && SplitType(s).word != "list" ==>
      Parse(s) == Failure(UnknownComplexType)
  {
    if AllWord(s) {
      SplitAllWord(s);
    }
  }

  /** Pointer widths of the descriptors ParseType builds: 8 for a list, 4
      otherwise; so a pointer to a list is 8 bytes wide and any other pointer 4. */
  lemma PointerWidths(d: DataType)
    requires WellFormed(d)
    ensures d.pointerWidth == (if d.ListType? then 8 else 4)
    ensures d.PointerType? ==> d.width == (if d.refType.ListType? then 8 else 4)
  {
  }

  /** A pointer to a primitive is 4 bytes wide ("ref|int" among them). */
  lemma RefPrimitive(x: string)
    requires Primitive(x).Some?
    ensures Parse(RefOf(x)) == Success(PointerType(RefOf(x), 4, 4, Primitive(x).value))
  {
    ParseName(Primitive(x).value);
    ParseRef(x);
  }

  /** A pointer to a list is 8 bytes wide, whatever the list holds. */
  lemma RefListWidth(x: string)
    requires Parse(x).Success?
    ensures Parse(RefOf(ListOf(x))).Success? && Parse(RefOf(ListOf(x))).value.width == 8
  {
    var l := ListOf(x);
    ParseList(x);
    assert Parse(l).Success? && Parse(l).value.pointerWidth == 8;
    ParseRef(l);
  }

  lemma UnknownPrefixExample()
    ensures Parse("foo|int") == Failure(UnknownComplexType)
  {
    assert AllWord("foo");
    assert "foo" + "|" + "int" == "foo|int";
    SplitPrefixed("foo", "int");
  }

  lemma UnknownWordExample()
    ensures Parse("frobnicate") == Failure(UnknownDataType)
  {
    assert AllWord("frobnicate");
    assert |"frobnicate"| == 10;
    ParseRejects("frobnicate");
  }

  /** A prefix with nothing after the bar is not a prefix: the whole string
      reaches the value-type check and fails there. */
  lemma BarePrefixExample()
    ensures Parse("ref|") == Failure(InvalidValueType)
  {
    assert !IsWordChar("ref|"[3]);
    ParseRejects("ref|");
  }

  /** The schema strings a successful ParseType(s) leaves in the type table:
      `s` itself and, for a prefixed schema, those of the rest. */
  function Chain(s: string): (c: set<string>)
    ensures s in c
    decreases |s|
  {
    match SplitType(s)
    case Plain => {s}
    case Prefixed(_, rest) => {s} + Chain(rest)
  }
}
