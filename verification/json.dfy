/** JavaScript values, their canonical printing, and a parser that inverts it. */
module Json {
  import opened Texts

  /** A value handed to the printers.  `Absent` stands for `undefined`, functions and symbols;
      `Refused` for the values the printer throws on (BigInt and Date). */
  datatype Json =
    | Absent
    | Refused
    | Null
    | Bool(b: bool)
    | Number(text: Text)
    | NonFinite(name: Text)
    | String(s: Text)
    | Array(items: seq<Json>)
    | Object(fields: seq<Field>)

  /** Own enumerable properties in insertion order. */
  datatype Field = Field(key: Text, value: Json)

  /** What the printed text denotes: objects are maps, so key order is gone. */
  datatype Meaning =
    | MNull
    | MBool(b: bool)
    | MNumber(text: Text)
    | MString(s: Text)
    | MArray(items: seq<Meaning>)
    | MObject(fields: map<Text, Meaning>)

  datatype Printed = Throws | Skip | Out(text: Text)

  const QUOTE: CodeUnit := 34
  const BACKSLASH: CodeUnit := 92
  const COMMA: CodeUnit := 44
  const COLON: CodeUnit := 58
  const LBRACKET: CodeUnit := 91
  const RBRACKET: CodeUnit := 93
  const LBRACE: CodeUnit := 123
  const RBRACE: CodeUnit := 125
  const LETTER_U: CodeUnit := 117
  const NULL_TEXT: Text := [110, 117, 108, 108]
  const TRUE_TEXT: Text := [116, 114, 117, 101]
  const FALSE_TEXT: Text := [102, 97, 108, 115, 101]

  // ---------------------------------------------------------------- well-formed values

  /** Characters of a printed number: digits, '+', '-', '.', 'E', 'e'. */
  predicate NumberUnit(u: CodeUnit) {
    48 <= u <= 57 || u == 43 || u == 45 || u == 46 || u == 69 || u == 101
  }

  predicate NumberText(t: Text) {
    && |t| > 0
    && (48 <= t[0] <= 57 || t[0] == 45)
    && forall u | u in t :: NumberUnit(u)
  }

  predicate DistinctKeys(fields: seq<Field>) {
    forall i, j | 0 <= i < j < |fields| :: fields[i].key != fields[j].key
  }

  /** Number texts are number texts, and an object never has one key twice. */
  predicate WellFormed(v: Json) {
    match v
    case Number(t) => NumberText(t)
    case Array(items) => forall x | x in items :: WellFormed(x)
    case Object(fields) => DistinctKeys(fields) && forall f | f in fields :: WellFormed(f.value)
    case _ => true
  }

  /** Nothing the printer throws on occurs anywhere inside. */
  predicate Supported(v: Json) {
    match v
    case Refused => false
    case Array(items) => forall x | x in items :: Supported(x)
    case Object(fields) => forall f | f in fields :: Supported(f.value)
    case _ => true
  }

  predicate IsData(v: Json) {
    WellFormed(v) && Supported(v)
  }

  /** An event payload: a finite tree the printers accept. */
  type Payload = v: Json | IsData(v) witness Null

  // ---------------------------------------------------------------- strings

  predicate High(u: CodeUnit) { 0xD800 <= u <= 0xDBFF }
  predicate Low(u: CodeUnit) { 0xDC00 <= u <= 0xDFFF }

  function HexDigit(n: nat): CodeUnit
    requires n < 16
  {
    if n < 10 then 48 + n else 87 + n
  }

  function UnicodeEscape(u: CodeUnit): (t: Text)
    ensures |t| == 6
  {
    [BACKSLASH, LETTER_U, HexDigit(u / 4096), HexDigit(u / 256 % 16), HexDigit(u / 16 % 16), HexDigit(u % 16)]
  }

  function EscapeUnit(u: CodeUnit): (t: Text)
    ensures |t| > 0
  {
    if u == QUOTE then [BACKSLASH, QUOTE]
    else if u == BACKSLASH then [BACKSLASH, BACKSLASH]
    else if u == 8 then [BACKSLASH, 98]
    else if u == 9 then [BACKSLASH, 116]
    else if u == 10 then [BACKSLASH, 110]
    else if u == 12 then [BACKSLASH, 102]
    else if u == 13 then [BACKSLASH, 114]
    else if u < 32 || High(u) || Low(u) then UnicodeEscape(u)
    else [u]
  }

  /** String contents as `JSON.stringify` writes them: a surrogate pair stays raw, a lone
      surrogate is escaped. */
  function Escape(s: Text): Text {
    if s == [] then []
    else if High(s[0]) && |s| > 1 && Low(s[1]) then [s[0], s[1]] + Escape(s[2..])
    else EscapeUnit(s[0]) + Escape(s[1..])
  }

  function Quoted(s: Text): Text { [QUOTE] + Escape(s) + [QUOTE] }

  // ---------------------------------------------------------------- the canonical printer

  /** Insertion of one field into a key-sorted list. */
  function InsertField(f: Field, sorted: seq<Field>): seq<Field> {
    if sorted == [] then [f]
    else if Less(sorted[0].key, f.key) then [sorted[0]] + InsertField(f, sorted[1..])
    else [f] + sorted
  }

  /** The fields in ascending key order. */
  function SortFields(fields: seq<Field>): seq<Field> {
    if fields == [] then [] else InsertField(fields[0], SortFields(fields[1..]))
  }

  function Tail(texts: seq<Text>): Text {
    if texts == [] then [] else [COMMA] + texts[0] + Tail(texts[1..])
  }

  function Join(texts: seq<Text>): Text {
    if texts == [] then [] else texts[0] + Tail(texts[1..])
  }

  lemma {:induction false} InsertFieldMembers(f: Field, sorted: seq<Field>)
    ensures forall g :: g in InsertField(f, sorted) <==> g == f || g in sorted
    ensures |InsertField(f, sorted)| == |sorted| + 1
  {
    if sorted != [] {
      InsertFieldMembers(f, sorted[1..]);
      assert sorted == [sorted[0]] + sorted[1..];
    }
  }

  lemma {:induction false} SortFieldsMembers(fields: seq<Field>)
    ensures forall g :: g in SortFields(fields) <==> g in fields
    ensures |SortFields(fields)| == |fields|
  {
    if fields != [] {
      SortFieldsMembers(fields[1..]);
      InsertFieldMembers(fields[0], SortFields(fields[1..]));
      assert fields == [fields[0]] + fields[1..];
    }
  }

  /** The recursive printer: text, nothing for an absent value, or an exception. */
  function Serialize(v: Json): Printed
    decreases v, 1, 0
  {
    match v
    case Absent => Skip
    case Refused => Throws
    case Null => Out(NULL_TEXT)
    case Bool(b) => Out(if b then TRUE_TEXT else FALSE_TEXT)
    case Number(t) => Out(t)
    case NonFinite(_) => Out(NULL_TEXT)
    case String(s) => Out(Quoted(s))
    case Array(items) =>
      (match ItemTexts(v, items)
       case None => Throws
       case Some(texts) => Out([LBRACKET] + Join(texts) + [RBRACKET]))
    case Object(fields) =>
      SortFieldsMembers(fields);
      (match PairTexts(v, SortFields(fields))
       case None => Throws
       case Some(texts) => Out([LBRACE] + Join(texts) + [RBRACE]))
  }

  function ItemTexts(parent: Json, items: seq<Json>): Option<seq<Text>>
    requires parent.Array? && forall x | x in items :: x in parent.items
    decreases parent, 0, |items|
  {
    if items == [] then Some([])
    else
      assert items[0] in items;
      var head := Serialize(items[0]);
      var rest := ItemTexts(parent, items[1..]);
      if head.Throws? || rest.None? then None
      else Some([if head.Out? then head.text else NULL_TEXT] + rest.value)
  }

  function PairTexts(parent: Json, fields: seq<Field>): Option<seq<Text>>
    requires parent.Object? && forall f | f in fields :: f in parent.fields
    decreases parent, 0, |fields|
  {
    if fields == [] then Some([])
    else
      assert fields[0] in fields;
      var head := Serialize(fields[0].value);
      var rest := PairTexts(parent, fields[1..]);
      if head.Throws? || rest.None? then None
      else if head.Skip? then rest
      else Some([Quoted(fields[0].key) + [COLON] + head.text] + rest.value)
  }

  /** `canonicalStringify`: the text, or None where the source throws a TypeError. */
  function CanonicalStringify(v: Json): Option<Text> {
    match Serialize(v)
    case Out(text) => Some(text)
    case _ => None
  }

  // ---------------------------------------------------------------- meaning

  function MeaningOf(v: Json): Meaning {
    match v
    case Bool(b) => MBool(b)
    case Number(t) => MNumber(t)
    case String(s) => MString(s)
    case Array(items) => MArray(ItemMeanings(items))
    case Object(fields) => MObject(FieldMeanings(fields))
    case _ => MNull
  }

  function ItemMeanings(items: seq<Json>): (ms: seq<Meaning>)
    ensures |ms| == |items|
    ensures forall i | 0 <= i < |items| :: ms[i] == MeaningOf(items[i])
  {
    if items == [] then [] else [MeaningOf(items[0])] + ItemMeanings(items[1..])
  }

  /** One member added, unless its value is absent. */
  function Put(m: map<Text, Meaning>, key: Text, absent: bool, value: Meaning): map<Text, Meaning> {
    if absent then m else m[key := value]
  }

  function FieldMeanings(fields: seq<Field>): map<Text, Meaning> {
    if fields == [] then map[]
    else Put(FieldMeanings(fields[1..]), fields[0].key, fields[0].value.Absent?, MeaningOf(fields[0].value))
  }
}
