/**
 The result canonicalizer: a SPARQL result table or a JSON-LD graph becomes a sorted list of
 canonical rows and the stream fed to SHA-256. The hash itself is not modelled; equal streams
 hash equal, and the theorems are about the stream.
 */
module Canon {
  import opened Prelude
  import opened Ordering
  import opened Json
  import opened IntegerLexical

  const CELL_SEP := '\U{001F}'
  const ROW_SEP := '\U{001E}'
  const LANG_SEP := '\U{001D}'
  const UNBOUND: string := ['\0'] + "UNBOUND"

  datatype Canonical = Canonical(rows: nat, stream: string, canonicalRows: seq<string>)

  // ------------------------------------------------------------------
  // Reading documents
  // ------------------------------------------------------------------

  function Find(members: seq<Member>, key: string): Option<Json> {
    if members == [] then None
    else if members[0].key == key then Some(members[0].value)
    else Find(members[1..], key)
  }

  /** `Value::get` with a string key. */
  function Get(v: Json, key: string): Option<Json> {
    if v.Object? then Find(v.members, key) else None
  }

  function GetIn(v: Option<Json>, key: string): Option<Json> {
    if v.Some? then Get(v.value, key) else None
  }

  function AsString(v: Option<Json>): Option<string> {
    if v.Some? && v.value.String? then Some(v.value.text) else None
  }

  function AsArray(v: Option<Json>): Option<seq<Json>> {
    if v.Some? && v.value.Array? then Some(v.value.items) else None
  }

  function OrElse<T>(v: Option<T>, other: T): T {
    if v.Some? then v.value else other
  }

  // ------------------------------------------------------------------
  // Cells
  // ------------------------------------------------------------------

  /** The part of a datatype IRI after the last `#` or `/`. */
  function LocalName(dt: string): string {
    if dt == [] || dt[|dt| - 1] in {'#', '/'} then []
    else LocalName(dt[..|dt| - 1]) + [dt[|dt| - 1]]
  }

  predicate IsIntegerType(local: string) {
    local in {"integer", "int", "long", "short", "byte", "nonNegativeInteger", "nonPositiveInteger",
              "negativeInteger", "positiveInteger", "unsignedLong", "unsignedInt", "unsignedShort", "unsignedByte"}
  }

  /** `floats` stands for the decimal and double arms, which go through `f64` parsing and printing. */
  function CanonicalLiteral(value: string, typeIri: Option<string>, floats: (string, string) -> string): string {
    match typeIri
    case None => value
    case Some(dt) =>
      var local := LocalName(dt);
      if IsIntegerType(local) then CanonicalInteger(value)
      else if local in {"decimal", "double", "float"} then floats(local, value)
      else value
  }

  function LowerAscii(s: string): string {
    if s == [] then []
    else [if 'A' <= s[0] <= 'Z' then s[0] - 'A' + 'a' else s[0]] + LowerAscii(s[1..])
  }

  /** What a cell denotes after canonicalization. */
  datatype Term =
    | Unbound
    | Iri(iri: string)
    | BlankNode
    | Literal(lexical: string, lang: Option<string>)

  function TermOf(cell: Option<Json>, floats: (string, string) -> string): Term {
    if cell.None? then Unbound
    else
      var kind := OrElse(AsString(Get(cell.value, "type")), "");
      var value := OrElse(AsString(Get(cell.value, "value")), "");
      if kind == "uri" then Iri(value)
      else if kind == "bnode" then BlankNode
      else
        var lexical := CanonicalLiteral(value, AsString(Get(cell.value, "datatype")), floats);
        var lang := AsString(Get(cell.value, "xml:lang"));
        Literal(lexical, if lang.Some? && lang.value != "" then Some(LowerAscii(lang.value)) else None)
  }

  function Render(term: Term): string {
    match term
    case Unbound => UNBOUND
    case Iri(iri) => "<" + iri + ">"
    case BlankNode => "_:b"
    case Literal(lexical, None) => lexical
    case Literal(lexical, Some(lang)) => lexical + [LANG_SEP] + "@" + lang
  }

  function CanonicalCell(cell: Option<Json>, floats: (string, string) -> string): string {
    Render(TermOf(cell, floats))
  }

  // ------------------------------------------------------------------
  // Rows and the stream
  // ------------------------------------------------------------------

  /** The cell a binding has in each column. */
  function CellIn(binding: Json, floats: (string, string) -> string): string -> string {
    (column: string) => CanonicalCell(Get(binding, column), floats)
  }

  function CellsOf(columns: seq<string>, floats: (string, string) -> string): Json -> seq<string> {
    (binding: Json) => Map(CellIn(binding, floats), columns)
  }

  function Join(cells: seq<string>): string {
    if |cells| == 0 then ""
    else if |cells| == 1 then cells[0]
    else Join(cells[..|cells| - 1]) + [CELL_SEP] + cells[|cells| - 1]
  }

  /** The canonical cells of every row. */
  function Table(bindings: seq<Json>, columns: seq<string>, floats: (string, string) -> string): seq<seq<string>> {
    Map(CellsOf(columns, floats), bindings)
  }

  function Terminated(): string -> string {
    (row: string) => row + [ROW_SEP]
  }

  function Stream(rows: seq<string>): string {
    FlatMap(Terminated(), rows)
  }

  function Finished(rows: seq<string>): Canonical {
    var sorted := Sort(rows, LexLeq);
    Canonical(|rows|, Stream(sorted), sorted)
  }

  /** `finish`: sort the rows, then feed them one by one to the hasher. */
  method Finish(rows: seq<string>) returns (c: Canonical)
    ensures c == Finished(rows)
  {
    var sorted := Sort(rows, LexLeq);
    var stream := "";
    FlatMapNil(Terminated(), sorted);
    for i := 0 to |sorted|
      invariant stream == FlatMap(Terminated(), sorted[..i])
    {
      FlatMapSnoc(Terminated(), sorted, i);
      stream := stream + sorted[i];
      stream := stream + [ROW_SEP];
    }
    c := Canonical(|sorted|, stream, sorted);
  }

  function StringsIn(items: seq<Json>): seq<string> {
    if items == [] then []
    else StringsIn(items[..|items| - 1]) +
         (if items[|items| - 1].String? then [items[|items| - 1].text] else [])
  }

  /** `head.vars`, as far as they are strings. */
  function VarsOf(doc: Json): seq<string> {
    StringsIn(OrElse(AsArray(GetIn(Get(doc, "head"), "vars")), []))
  }

  function BindingsOf(doc: Json): Option<seq<Json>> {
    AsArray(GetIn(Get(doc, "results"), "bindings"))
  }

  function PrintBool(b: bool): string {
    if b then "true" else "false"
  }

  function AskOf(doc: Json): Option<bool> {
    var b := Get(doc, "boolean");
    if b.Some? && b.value.Bool? then Some(b.value.flag) else None
  }

  /** The table of a result document, its columns in ascending order. */
  function TableOf(doc: Json, floats: (string, string) -> string): seq<seq<string>> {
    Table(OrElse(BindingsOf(doc), []), Sort(VarsOf(doc), LexLeq), floats)
  }

  function SparqlCanonical(doc: Json, floats: (string, string) -> string): Result<Canonical> {
    if AskOf(doc).Some? then Ok(Finished(["BOOLEAN" + [CELL_SEP] + PrintBool(AskOf(doc).value)]))
    else if BindingsOf(doc).None? then Refused
    else Ok(Finished(Map(Join, TableOf(doc, floats))))
  }

  /** `canonicalize_sparql_json`. */
  method CanonicalizeSparqlJson(doc: Json, floats: (string, string) -> string) returns (r: Result<Canonical>)
    ensures r == SparqlCanonical(doc, floats)
  {
    if AskOf(doc).Some? {
      var row := "BOOLEAN" + [CELL_SEP] + PrintBool(AskOf(doc).value);
      var c := Finish([row]);
      return Ok(c);
    }
    var vars := Sort(VarsOf(doc), LexLeq);
    if BindingsOf(doc).None? {
      return Refused;
    }
    var bindings := BindingsOf(doc).value;
    var rows := CollectRows(bindings, vars, floats);
    var c := Finish(rows);
    r := Ok(c);
  }

  method CollectRows(bindings: seq<Json>, vars: seq<string>, floats: (string, string) -> string)
      returns (rows: seq<string>)
    ensures rows == Map(Join, Table(bindings, vars, floats))
  {
    hide Map, Join, CanonicalCell;
    rows := [];
    for i := 0 to |bindings|
      invariant |rows| == i
      invariant forall k :: 0 <= k < i ==> rows[k] == Join(CellsOf(vars, floats)(bindings[k]))
    {
      var cells := [];
      for j := 0 to |vars|
        invariant |cells| == j
        invariant forall k :: 0 <= k < j ==> cells[k] == CellIn(bindings[i], floats)(vars[k])
      {
        cells := cells + [CanonicalCell(Get(bindings[i], vars[j]), floats)];
      }
      assert cells == Map(CellIn(bindings[i], floats), vars);
      rows := rows + [Join(cells)];
    }
  }

  function NodesOf(doc: Json): seq<Json> {
    var graph := AsArray(Get(doc, "@graph"));
    if graph.Some? then graph.value else if doc.Array? then doc.items else []
  }

  /** `text` stands for `serde_json::to_string`. */
  function GraphCanonical(doc: Json, text: Json -> string): Canonical {
    Finished(Map(text, SortItems(NodesOf(doc))))
  }

  /** `canonicalize`: dispatch on the shape of the document. */
  function Canonicalized(doc: Json, text: Json -> string, floats: (string, string) -> string): Result<Canonical> {
    if Get(doc, "@graph").Some? || doc.Array? then Ok(GraphCanonical(doc, text))
    else SparqlCanonical(doc, floats)
  }
}
