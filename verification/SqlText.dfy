/** The statements as text: how they are printed, and a parser for that part of SQL which reads the text
    back.  The parser knows nothing of the printer; that it finds what was meant is proved here. */
module SqlText {
  import opened OptionType
  import opened CStrings
  import opened Literals

  type Parsed<T> = Option<(T, string)>

  // ---- Tokens ------------------------------------------------------------------------------------------------

  predicate WordStart(c: char) { 'a' <= c <= 'z' || 'A' <= c <= 'Z' || c == '_' || c as int >= 128 }

  predicate WordChar(c: char) { WordStart(c) || Digit(c) || c == '$' }

  function SkipSpaces(s: string): (r: string)
    ensures |r| <= |s|
  {
    if s != "" && s[0] == ' ' then SkipSpaces(s[1..]) else s
  }

  function SkipWord(s: string): (r: string)
    ensures |r| <= |s|
  {
    if s != "" && WordChar(s[0]) then SkipWord(s[1..]) else s
  }

  /** Behind the closing double quote; two of them are one in the name. */
  function SkipDelimited(s: string): (r: Option<string>)
    ensures r.Some? ==> |r.value| < |s|
  {
    if s == "" then None
    else if s[0] != '"' then SkipDelimited(s[1..])
    else if |s| > 1 && s[1] == '"' then SkipDelimited(s[2..])
    else Some(s[1..])
  }

  function SkipName(s: string): (r: Option<string>)
    ensures r.Some? ==> |r.value| < |s|
  {
    if s == "" then None
    else if WordStart(s[0]) then Some(SkipWord(s[1..]))
    else if s[0] == '"' then SkipDelimited(s[1..])
    else None
  }

  /** The key words of PostgreSQL that name no schema and no column: the reserved ones and those that can be the
      name of a function or a type (appendix C of its manual). */
  predicate KeptWord(w: string) {
    w in {"all", "analyse", "analyze", "and", "any", "array", "as", "asc", "asymmetric", "both", "case", "cast", "check",
          "collate", "column", "constraint", "create", "current_catalog", "current_date", "current_role",
          "current_time", "current_timestamp", "current_user", "default", "deferrable", "desc", "distinct", "do",
          "else", "end", "except", "false", "fetch", "for", "foreign", "from", "grant", "group", "having", "in",
          "initially", "intersect", "into", "lateral", "leading", "limit", "localtime", "localtimestamp", "not",
          "null", "offset", "on", "only", "or", "order", "placing", "primary", "references", "returning", "select",
          "session_user", "some", "symmetric", "table", "then", "to", "trailing", "true", "union", "unique", "user",
          "using", "variadic", "when", "where", "window", "with",
          "authorization", "binary", "collation", "concurrently", "cross", "current_schema", "freeze", "full",
          "ilike", "inner", "is", "isnull", "join", "left", "like", "natural", "notnull", "outer", "overlaps",
          "right", "similar", "tablesample", "verbose"}
  }

  predicate Reserved(s: string) { KeptWord(Lowered(s)) }

  /** The name of a schema or a column, as it is spelled. */
  function ParseName(s: string): Parsed<string> {
    match SkipName(s)
    case None => None
    case Some(rest) => if Reserved(s[..|s| - |rest|]) then None else Some((s[..|s| - |rest|], rest))
  }

  /** Behind a dot any word is a name. */
  function ParseLabel(s: string): Parsed<string> {
    match SkipName(s)
    case None => None
    case Some(rest) => Some((s[..|s| - |rest|], rest))
  }

  /** The key word `w`, in small or in capital letters. */
  function Keyword(w: string, s: string): Option<string> {
    var s' := SkipSpaces(s);
    match SkipName(s')
    case None => None
    case Some(rest) => if Lowered(s'[..|s'| - |rest|]) == w then Some(rest) else None
  }

  function Symbol(c: char, s: string): Option<string> {
    var s' := SkipSpaces(s);
    if s' != "" && s'[0] == c then Some(s'[1..]) else None
  }

  /** `null`, a string constant or a number. */
  function ParseValue(s: string): Parsed<Option<string>> {
    match LexConstant(s)
    case Some((v, rest)) => Some((Some(v), rest))
    case None =>
      match LexNumber(s)
      case Some((v, rest)) => Some((Some(v), rest))
      case None =>
        match Keyword("null", s)
        case Some(rest) => Some((None, rest))
        case None => None
  }

  // ---- Grammar -----------------------------------------------------------------------------------------------

  type Binding = (string, Option<string>)

  datatype Query =
    | InsertQ(schema: string, rel: string, cols: seq<string>, vals: seq<Option<string>>)
    | UpdateQ(schema: string, rel: string, sets: seq<Binding>, wheres: seq<Binding>)
    | DeleteQ(schema: string, rel: string, wheres: seq<Binding>)

  /** column = value */
  function ParseBinding(s: string): Parsed<Binding> {
    match ParseName(s)
    case None => None
    case Some((col, s1)) =>
      match Symbol('=', s1)
      case None => None
      case Some(s2) =>
        match ParseValue(s2)
        case None => None
        case Some((v, s3)) => Some(((col, v), s3))
  }

  function Comma(s: string): Option<string> {
    match Symbol(',', s)
    case None => None
    case Some(s1) => Some(SkipSpaces(s1))
  }

  function And(s: string): Option<string> {
    match Keyword("and", s)
    case None => None
    case Some(s1) => Some(SkipSpaces(s1))
  }

  /** One or more, with separators between them. */
  function ParseList<T>(one: string -> Parsed<T>, sep: string -> Option<string>, s: string): Parsed<seq<T>>
    decreases |s|
  {
    match one(s)
    case None => None
    case Some((x, s1)) =>
      match sep(s1)
      case None => Some(([x], s1))
      case Some(s2) =>
        if |s2| >= |s| then None
        else
          match ParseList(one, sep, s2)
          case None => None
          case Some((xs, s3)) => Some(([x] + xs, s3))
  }

  function ParseTable(s: string): Parsed<(string, string)> {
    match ParseName(SkipSpaces(s))
    case None => None
    case Some((schema, s1)) =>
      match Symbol('.', s1)
      case None => None
      case Some(s2) =>
        match ParseLabel(SkipSpaces(s2))
        case None => None
        case Some((rel, s3)) => Some(((schema, rel), s3))
  }

  /** WHERE conditions, the semicolon, and nothing else. */
  function ParseWhere(s: string): Option<seq<Binding>> {
    match Keyword("where", s)
    case None => None
    case Some(s1) =>
      match ParseList(ParseBinding, And, SkipSpaces(s1))
      case None => None
      case Some((wheres, s2)) => if SkipSpaces(s2) == ";" then Some(wheres) else None
  }

  /** A list in parentheses. */
  function ParseGroup<T>(one: string -> Parsed<T>, s: string): Parsed<seq<T>> {
    match Symbol('(', s)
    case None => None
    case Some(s1) =>
      match ParseList(one, Comma, s1)
      case None => None
      case Some((xs, s2)) =>
        match Symbol(')', s2)
        case None => None
        case Some(s3) => Some((xs, s3))
  }

  function ParseInsert(s: string): Option<Query> {
    match ParseTable(s)
    case None => None
    case Some(((schema, rel), s1)) =>
      match ParseGroup(ParseName, s1)
      case None => None
      case Some((cols, s2)) =>
        match Keyword("values", s2)
        case None => None
        case Some(s3) =>
          match ParseGroup(ParseValue, s3)
          case None => None
          case Some((vals, s4)) =>
            if SkipSpaces(s4) == ";" && |cols| == |vals| then Some(InsertQ(schema, rel, cols, vals)) else None
  }

  function ParseUpdate(s: string): Option<Query> {
    match ParseTable(s)
    case None => None
    case Some(((schema, rel), s1)) =>
      match Keyword("set", s1)
      case None => None
      case Some(s2) =>
        match ParseList(ParseBinding, Comma, SkipSpaces(s2))
        case None => None
        case Some((sets, s3)) =>
          match ParseWhere(s3)
          case None => None
          case Some(wheres) => Some(UpdateQ(schema, rel, sets, wheres))
  }

  function ParseDelete(s: string): Option<Query> {
    match ParseTable(s)
    case None => None
    case Some(((schema, rel), s1)) =>
      match ParseWhere(s1)
      case None => None
      case Some(wheres) => Some(DeleteQ(schema, rel, wheres))
  }

  function ParseQuery(s: string): Option<Query> {
    match Keyword("insert", s)
    case Some(s1) =>
      (match Keyword("into", s1)
       case None => None
       case Some(s2) => ParseInsert(s2))
    case None =>
      match Keyword("update", s)
      case Some(s1) => ParseUpdate(s1)
      case None =>
        match Keyword("delete", s)
        case None => None
        case Some(s1) =>
          match Keyword("from", s1)
          case None => None
          case Some(s2) => ParseDelete(s2)
  }

  // ---- What a name denotes -----------------------------------------------------------------------------------

  /** What stands between double quotes, two of which are one. */
  function Undoubled(s: string): string {
    if s == "" then ""
    else if s[0] == '"' && |s| > 1 && s[1] == '"' then ['"'] + Undoubled(s[2..])
    else [s[0]] + Undoubled(s[1..])
  }

  /** The name that a spelling denotes: in double quotes as it stands, without them in small letters. */
  function Denoted(s: string): string {
    if |s| > 1 && s[0] == '"' then Undoubled(s[1..|s| - 1]) else Lowered(s)
  }

  /** The table that a statement is about. */
  function TargetOf(q: Query): (string, string) { (Denoted(q.schema), Denoted(q.rel)) }

  /** A word in small letters: without quotes it denotes itself. */
  predicate PlainName(s: string) { s != "" && WordStart(s[0]) && SkipWord(s[1..]) == "" && Lowered(s) == s }

  predicate PlainSchema(s: string) { PlainName(s) && !Reserved(s) }

  // ---- What is printed ---------------------------------------------------------------------------------------

  datatype Lit = NullLit | Typed(typ: string, v: string)

  datatype Item = Item(col: string, lit: Lit)

  function LitText(l: Lit): string { if l.NullLit? then "null" else Print(l.typ, l.v) }

  function LitValue(l: Lit): Option<string> { if l.NullLit? then None else Some(l.v) }

  function ItemText(x: Item): string { x.col + "=" + LitText(x.lit) }

  function Meant(x: Item): Binding { (x.col, LitValue(x.lit)) }

  function Joined(pieces: seq<string>, sep: string): string {
    if pieces == [] then ""
    else if |pieces| == 1 then pieces[0]
    else pieces[0] + sep + Joined(pieces[1..], sep)
  }

  function ItemTexts(items: seq<Item>): (r: seq<string>)
    ensures |r| == |items|
    ensures forall k | 0 <= k < |items| :: r[k] == ItemText(items[k])
  {
    seq(|items|, i requires 0 <= i < |items| => ItemText(items[i]))
  }

  function LitTexts(lits: seq<Lit>): (r: seq<string>)
    ensures |r| == |lits|
    ensures forall k | 0 <= k < |lits| :: r[k] == LitText(lits[k])
  {
    seq(|lits|, i requires 0 <= i < |lits| => LitText(lits[i]))
  }

  function Bindings(items: seq<Item>): (r: seq<Binding>)
    ensures |r| == |items|
    ensures forall k | 0 <= k < |items| :: r[k] == Meant(items[k])
  {
    seq(|items|, i requires 0 <= i < |items| => Meant(items[i]))
  }

  function Values(lits: seq<Lit>): (r: seq<Option<string>>)
    ensures |r| == |lits|
    ensures forall k | 0 <= k < |lits| :: r[k] == LitValue(lits[k])
  {
    seq(|lits|, i requires 0 <= i < |lits| => LitValue(lits[i]))
  }

  /** The statements; an INSERT whose last attribute is dropped leaves a comma behind its column list. */
  datatype Stmt =
    | InsertS(schema: string, rel: string, cols: seq<string>, comma: bool, lits: seq<Lit>)
    | UpdateS(schema: string, rel: string, sets: seq<Item>, wheres: seq<Item>)
    | DeleteS(schema: string, rel: string, wheres: seq<Item>)

  function WhereText(wheres: seq<Item>): string { "WHERE " + Joined(ItemTexts(wheres), " AND ") + ";" }

  function SetText(sets: seq<Item>): string { " SET " + Joined(ItemTexts(sets), " , ") }

  function ColumnsText(cols: seq<string>, comma: bool): string {
    "(" + Joined(cols, ",") + (if comma then "," else "") + ") "
  }

  function ValuesText(lits: seq<Lit>): string { "VALUES(" + Joined(LitTexts(lits), ", ") + ");" }

  function Render(st: Stmt): string {
    match st
    case InsertS(schema, rel, cols, comma, lits) =>
      "INSERT INTO " + schema + "." + rel + " " + ColumnsText(cols, comma) + ValuesText(lits)
    case UpdateS(schema, rel, sets, wheres) =>
      "UPDATE " + schema + "." + rel + " " + SetText(sets) + " " + WhereText(wheres)
    case DeleteS(schema, rel, wheres) =>
      "DELETE FROM " + schema + "." + rel + " " + WhereText(wheres)
  }

  function MeaningOf(st: Stmt): Query {
    match st
    case InsertS(schema, rel, cols, _, lits) => InsertQ(schema, rel, cols, Values(lits))
    case UpdateS(schema, rel, sets, wheres) => UpdateQ(schema, rel, Bindings(sets), Bindings(wheres))
    case DeleteS(schema, rel, wheres) => DeleteQ(schema, rel, Bindings(wheres))
  }
}
