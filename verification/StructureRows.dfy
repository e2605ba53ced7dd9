/** What the structure merge reads from a row (src/dataset_structure_merger.rs:108-204). Library calls
    are inputs: JSON text, lower-casing, row identifiers and number parsing. */
module StructureRows {
  import opened DocStore
  import opened Grouping
  import opened Json
  import opened Text

  const BUCKET_COUNT: nat := 256

  datatype Library = Library(
    parse: string -> Option<Value>,
    show: Value -> string,
    lower: string -> string,
    stableId: seq<string> -> string,
    parseInt: string -> Option<int>,
    parseReal: string -> Option<real>)

  function Member(v: Value, name: string): Option<Value> {
    if v.Object? && name in v.fields then Some(v.fields[name]) else None
  }

  /** `parse_payload`. */
  function Payload(lib: Library, row: Row): Value {
    var text := match Field(row, "content_with_weight") case Some(String(t)) => t case _ => "";
    match lib.parse(text)
    case Some(v) => v
    case None => Object(map[])
  }

  /** A value as text: strings as they are, anything else as JSON. */
  function AsText(lib: Library, v: Value): string {
    if v.String? then v.s else lib.show(v)
  }

  function TrimQuotes(s: string): string {
    if s != "" && s[0] == '"' then TrimQuotes(s[1..])
    else if s != "" && s[|s| - 1] == '"' then TrimQuotes(s[..|s| - 1])
    else s
  }

  /** `str_of`. */
  function StrOf(lib: Library, v: Option<Value>): string {
    match v
    case None => ""
    case Some(Null) => ""
    case Some(String(text)) => Trim(text)
    case Some(other) => Trim(TrimQuotes(lib.show(other)))
  }

  function StrMember(v: Value, name: string): Option<string> {
    match Member(v, name)
    case Some(String(text)) => Some(text)
    case _ => None
  }

  function StrField(row: Row, name: string): Option<string> {
    match Field(row, name)
    case Some(String(text)) => Some(text)
    case _ => None
  }

  function OrElse<T>(first: Option<T>, second: Option<T>): Option<T> {
    if first.Some? then first else second
  }

  function UnwrapOr<T>(value: Option<T>, fallback: T): T {
    if value.Some? then value.value else fallback
  }

  /** `struct_entity_name`. */
  function EntityName(lib: Library, payload: Value): string {
    var direct := Member(payload, "name");
    var value :=
      if direct.Some? && direct.value != Null then direct
      else
        match StrMember(payload, "content_with_weight")
        case None => None
        case Some(text) => (
          match lib.parse(text)
          case None => None
          case Some(parsed) => Member(parsed, "name"));
    match value
    case None => ""
    case Some(Null) => ""
    case Some(other) => Trim(AsText(lib, other))
  }

  function EntityType(lib: Library, payload: Value): string {
    match Member(payload, "type")
    case None => "other"
    case Some(Null) => "other"
    case Some(other) => Trim(AsText(lib, other))
  }

  type EntityKey = (string, string)
  type RelationKey = (string, string, string)

  /** The group of an entity row: lower-cased name and type. */
  function EntityKeyOf(lib: Library, row: Row): EntityKey {
    var payload := Payload(lib, row);
    (lib.lower(EntityName(lib, payload)), EntityType(lib, payload))
  }

  function KeyOfEntity(lib: Library): Row -> EntityKey {
    row => EntityKeyOf(lib, row)
  }

  function NameKwd(lib: Library, row: Row): string {
    StrOf(lib, Field(row, "name_kwd"))
  }

  /** `bucket_id` for a hash function. */
  function BucketId(hash: string -> nat, name: string): (b: int)
    ensures 0 <= b < BUCKET_COUNT
  {
    hash(name) % BUCKET_COUNT
  }

  function BucketOfEntity(lib: Library, hash: string -> nat): Row -> int {
    row => BucketId(hash, NameKwd(lib, row))
  }

  /** One end of a relation: the payload's string member, else the row's keyword. */
  function Endpoint(lib: Library, row: Row, payload: Value, name: string, keyword: string): string {
    lib.lower(Trim(UnwrapOr(OrElse(StrMember(payload, name), StrField(row, keyword)), "")))
  }

  /** The group of a relation row: source, type and target. */
  function RelationKeyOf(lib: Library, row: Row): RelationKey {
    var payload := Payload(lib, row);
    (Endpoint(lib, row, payload, "from", "from_entity_kwd"),
     lib.lower(Trim(UnwrapOr(StrMember(payload, "type"), "related"))),
     Endpoint(lib, row, payload, "to", "to_entity_kwd"))
  }

  function KeyOfRelation(lib: Library): Row -> RelationKey {
    row => RelationKeyOf(lib, row)
  }

  function RelationText(k: RelationKey, separator: string): string {
    k.0 + separator + k.1 + separator + k.2
  }

  function BucketOfRelation(lib: Library, hash: string -> nat): Row -> int {
    row => BucketId(hash, RelationText(RelationKeyOf(lib, row), ":"))
  }

  /** Rust's cast of a float to an integer: toward zero. */
  function Truncate(x: real): int {
    if x >= 0.0 then x.Floor else -((-x).Floor)
  }

  /** `as_int_like`. */
  function AsInt(lib: Library, v: Option<Value>): Option<int> {
    match v
    case Some(Number(n)) => Some(Truncate(n))
    case Some(String(text)) => lib.parseInt(Trim(text))
    case _ => None
  }

  /** `as_f64_like`. */
  function AsReal(lib: Library, v: Option<Value>): Option<real> {
    match v
    case Some(Number(n)) => Some(n)
    case Some(String(text)) => lib.parseReal(Trim(text))
    case _ => None
  }

  /** `mention_count_of`: the row's own count unless it is absent or zero. */
  function MentionsOf(lib: Library): Row -> int {
    row =>
      var own := AsInt(lib, Field(row, "mention_count_int"));
      if own.Some? && own.value != 0 then own.value
      else UnwrapOr(AsInt(lib, Member(Payload(lib, row), "mention_count")), 1)
  }

  // ----- the lists a group collects -----

  function Texts(lib: Library, values: seq<Value>): (r: seq<string>)
    ensures |r| == |values| && forall i :: 0 <= i < |r| ==> r[i] == AsText(lib, values[i])
  {
    seq(|values|, i requires 0 <= i < |values| => AsText(lib, values[i]))
  }

  function ChunksOf(lib: Library): Row -> seq<string> {
    row => match Field(row, "source_chunk_ids") case Some(Array(items)) => Texts(lib, items) case _ => []
  }

  function NonEmpty(s: string): seq<string> {
    if s == "" then [] else [s]
  }

  function DocsOf(lib: Library): Row -> seq<string> {
    row => NonEmpty(StrOf(lib, Field(row, "doc_id")))
  }

  function NamesOf(lib: Library): Row -> seq<string> {
    row => NonEmpty(EntityName(lib, Payload(lib, row)))
  }

  function DescriptionsOf(lib: Library): Row -> seq<string> {
    row => match Member(Payload(lib, row), "description") case None => [] case Some(v) => NonEmpty(AsText(lib, v))
  }

  /** A relation without a description of its own is described by its key. */
  function RelationDescriptionsOf(lib: Library, k: RelationKey): Row -> seq<string> {
    row =>
      match StrMember(Payload(lib, row), "description")
      case Some(text) => [if text == "" then RelationText(k, " ") else text]
      case None => [RelationText(k, " ")]
  }

  function All(rows: seq<Row>, listed: Row -> seq<string>): seq<string> {
    if rows == [] then [] else All(rows[..|rows| - 1], listed) + listed(rows[|rows| - 1])
  }

  function Itself(): string -> string { s => s }

  /** The duplicate-free list in first-seen order. */
  function FirstSeen(s: seq<string>): seq<string> {
    Keys(s, Itself())
  }

  /** `longest_first`: the first of the longest items. */
  function Longest(items: seq<string>): (best: Option<string>) {
    if items == [] then None
    else
      var best, last := Longest(items[..|items| - 1]), items[|items| - 1];
      if best.None? || |last| > |best.value| then Some(last) else best
  }

  lemma {:induction false} LongestIsFirst(items: seq<string>)
    returns (i: nat)
    requires items != []
    ensures i < |items| && Longest(items) == Some(items[i])
    ensures forall j :: 0 <= j < i ==> |items[j]| < |items[i]|
    ensures forall j :: i <= j < |items| ==> |items[j]| <= |items[i]|
  {
    var n := |items| - 1;
    if n == 0 {
      i := 0;
    } else {
      i := LongestIsFirst(items[..n]);
      if |items[n]| > |items[i]| {
        forall j | 0 <= j < n ensures |items[j]| < |items[n]| { assert items[..n][j] == items[j]; }
        i := n;
      } else {
        forall j | 0 <= j < n ensures items[..n][j] == items[j] { }
      }
    }
  }

  method LongestFirst(items: seq<string>) returns (best: Option<string>)
    ensures best == Longest(items)
  {
    best := None;
    for i := 0 to |items|
      invariant best == Longest(items[..i])
    {
      if best.None? || |items[i]| > |best.value| {
        best := Some(items[i]);
      }
      assert items[..i + 1][..i] == items[..i];
    }
    assert items[..|items|] == items;
  }
}
