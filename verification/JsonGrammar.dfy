/**
 A reference grammar for the session parser: the concrete syntax trees of JSON text, the
 text each tree spells and the value it denotes. It is written without looking ahead or
 backtracking, so it says what the texts are and not how they are read.
 `IsTree` is the grammar of sections 2 to 7 of RFC 8259 over bytes: an unescaped byte from 0x80 up is
 taken as it is, whether it is UTF-8 or not. `Acceptable` is what the parser demands beyond it.
 */
module JsonGrammar {
  import opened Options
  import opened JsonTree
  import Wtf8

  // ----- Numbers

  predicate IsDigit(c: char) { '0' <= c <= '9' }

  predicate AllDigits(s: string) {
    forall c | c in s :: IsDigit(c)
  }

  predicate IsInteger(s: string) {
    s == "0" || (s != "" && '1' <= s[0] <= '9' && AllDigits(s))
  }

  predicate IsFraction(s: string) {
    |s| >= 2 && s[0] == '.' && AllDigits(s[1..])
  }

  predicate IsExponent(s: string) {
    && |s| >= 2 && s[0] in "eE"
    && (AllDigits(s[1..]) || (|s| >= 3 && s[1] in "+-" && AllDigits(s[2..])))
  }

  predicate NumberParts(minus: string, integer: string, fraction: string, exponent: string) {
    && (minus == "" || minus == "-")
    && IsInteger(integer)
    && (fraction == "" || IsFraction(fraction))
    && (exponent == "" || IsExponent(exponent))
  }

  ghost predicate IsNumber(s: string) {
    exists minus, integer, fraction, exponent ::
      NumberParts(minus, integer, fraction, exponent) && s == minus + integer + fraction + exponent
  }

  /** A character that could carry on a number already read. */
  predicate ContinuesNumber(c: char) { IsDigit(c) || c in ".eE" }

  // ----- Strings

  datatype Piece =
    | Raw(c: char)
    | Short(letter: char)
    | Escaped(hex: string)

  function HexDigit(c: char): Option<nat> {
    if '0' <= c <= '9' then Some(c as int - '0' as int)
    else if 'a' <= c <= 'f' then Some(c as int - 'a' as int + 10)
    else if 'A' <= c <= 'F' then Some(c as int - 'A' as int + 10)
    else None
  }

  predicate IsHex4(s: string) {
    |s| == 4 && forall c | c in s :: HexDigit(c).Some?
  }

  function HexValue(s: string): (code: nat)
    requires IsHex4(s)
    ensures code < 0x1_0000
  {
    HexDigit(s[0]).value * 4096 + HexDigit(s[1]).value * 256
    + HexDigit(s[2]).value * 16 + HexDigit(s[3]).value
  }

  /** The character a two-character escape stands for. */
  function ShortValue(letter: char): Option<char> {
    match letter
    case '"' => Some('"')
    case '\\' => Some('\\')
    case '/' => Some('/')
    case 'b' => Some(8 as char)
    case 'f' => Some(12 as char)
    case 'n' => Some('\n')
    case 'r' => Some('\r')
    case 't' => Some('\t')
    case _ => None
  }

  predicate IsPiece(piece: Piece) {
    match piece
    case Raw(c) => c >= ' ' && c != '"' && c != '\\'
    case Short(letter) => ShortValue(letter).Some?
    case Escaped(hex) => IsHex4(hex)
  }

  predicate ArePieces(pieces: seq<Piece>) {
    forall piece | piece in pieces :: IsPiece(piece)
  }

  function PieceText(piece: Piece): (text: string)
    ensures text != ""
  {
    match piece
    case Raw(c) => [c]
    case Short(letter) => ['\\', letter]
    case Escaped(hex) => "\\u" + hex
  }

  predicate IsHighPiece(piece: Piece) {
    piece.Escaped? && IsHex4(piece.hex) && Wtf8.IsHigh(HexValue(piece.hex))
  }

  predicate IsLowPiece(piece: Piece) {
    piece.Escaped? && IsHex4(piece.hex) && Wtf8.IsLow(HexValue(piece.hex))
  }

  /** Every escaped surrogate is one half of a pair. */
  predicate Paired(pieces: seq<Piece>) {
    forall i | 0 <= i < |pieces| :: PairedAt(pieces, i)
  }

  predicate PairedAt(pieces: seq<Piece>, i: nat)
    requires i < |pieces|
  {
    && (IsHighPiece(pieces[i]) ==> i + 1 < |pieces| && IsLowPiece(pieces[i + 1]))
    && (IsLowPiece(pieces[i]) ==> i > 0 && IsHighPiece(pieces[i - 1]))
  }

  /** The bytes a piece stands for on its own. */
  function PieceValue(piece: Piece): string {
    match piece
    case Raw(c) => [c]
    case Short(letter) => (match ShortValue(letter) case Some(c) => [c] case None => "")
    case Escaped(hex) => if IsHex4(hex) then Wtf8.EncodeScalar(HexValue(hex)) else ""
  }

  predicate StartsPair(pieces: seq<Piece>) {
    |pieces| > 1 && IsHighPiece(pieces[0]) && IsLowPiece(pieces[1])
  }

  function PiecesText(pieces: seq<Piece>): string {
    if pieces == [] then "" else PieceText(pieces[0]) + PiecesText(pieces[1..])
  }

  /** The bytes of a string; two escaped surrogates that form a pair stand for one character. */
  function PiecesValue(pieces: seq<Piece>): string {
    if pieces == [] then ""
    else if StartsPair(pieces) then
      Wtf8.EncodeScalar(Wtf8.Combine(HexValue(pieces[0].hex), HexValue(pieces[1].hex))) + PiecesValue(pieces[2..])
    else PieceValue(pieces[0]) + PiecesValue(pieces[1..])
  }

  /** A string token: the pieces between two quotation marks. */
  function Quoted(pieces: seq<Piece>): string {
    "\"" + (PiecesText(pieces) + "\"")
  }

  // ----- Values

  datatype Cst =
    | CNull
    | CTrue
    | CFalse
    | CNumber(lexeme: string)
    | CString(pieces: seq<Piece>)
    | CArray(blank: string, items: seq<Item>)
    | CObject(blank: string, members: seq<Member>)

  /** A value with the white space on both sides of it. */
  datatype Item = Item(lead: string, tree: Cst, trail: string)

  /** A key, the white space around it, and its value. */
  datatype Member = Member(lead: string, key: seq<Piece>, gap: string, item: Item)

  predicate IsSpace(c: char) { c == ' ' || c == '\n' || c == '\r' || c == '\t' }

  predicate AllSpace(s: string) {
    forall c | c in s :: IsSpace(c)
  }

  function TreeText(tree: Cst): (text: string)
    decreases tree, 0
  {
    match tree
    case CNull => "null"
    case CTrue => "true"
    case CFalse => "false"
    case CNumber(lexeme) => lexeme
    case CString(pieces) => Quoted(pieces)
    case CArray(blank, items) => "[" + (if items == [] then blank + "]" else ItemsText(items))
    case CObject(blank, members) => "{" + (if members == [] then blank + "}" else MembersText(members))
  }

  function ItemText(item: Item): string
    decreases item, 0
  {
    item.lead + (TreeText(item.tree) + item.trail)
  }

  /** One item, then `]` or a comma and the other items. */
  function ItemsText(items: seq<Item>): string
    requires items != []
    decreases items, 0
  {
    ItemText(items[0]) + (if |items| == 1 then "]" else "," + ItemsText(items[1..]))
  }

  function MemberText(member: Member): string
    decreases member, 0
  {
    member.lead + (Quoted(member.key) + (member.gap + (":" + ItemText(member.item))))
  }

  function MembersText(members: seq<Member>): string
    requires members != []
    decreases members, 0
  {
    MemberText(members[0]) + (if |members| == 1 then "}" else "," + MembersText(members[1..]))
  }

  /** The grammar: legal lexemes, and white space only where it may stand. */
  ghost predicate IsTree(tree: Cst)
    decreases tree, 0
  {
    match tree
    case CNumber(lexeme) => IsNumber(lexeme)
    case CString(pieces) => ArePieces(pieces)
    case CArray(blank, items) => AllSpace(blank) && forall item | item in items :: IsItem(item)
    case CObject(blank, members) => AllSpace(blank) && forall member | member in members :: IsMember(member)
    case _ => true
  }

  ghost predicate IsItem(item: Item)
    decreases item, 0
  {
    AllSpace(item.lead) && IsTree(item.tree) && AllSpace(item.trail)
  }

  ghost predicate IsMember(member: Member)
    decreases member, 0
  {
    AllSpace(member.lead) && ArePieces(member.key) && AllSpace(member.gap) && IsItem(member.item)
  }

  /** What the parser demands of a tree: numbers that read as finite doubles, escaped surrogates in pairs,
      and no key twice in an object. */
  predicate Acceptable(format: NumberFormat, tree: Cst)
    decreases tree, 0
  {
    match tree
    case CNumber(lexeme) => format(lexeme).Some?
    case CString(pieces) => Paired(pieces)
    case CArray(_, items) => forall item | item in items :: Acceptable(format, item.tree)
    case CObject(_, members) =>
      && (forall member | member in members :: AcceptableMember(format, member))
      && DistinctKeys(members)
    case _ => true
  }

  predicate AcceptableMember(format: NumberFormat, member: Member)
    decreases member, 0
  {
    Paired(member.key) && Acceptable(format, member.item.tree)
  }

  predicate DistinctKeys(members: seq<Member>) {
    forall i, j | 0 <= i < j < |members| :: PiecesValue(members[i].key) != PiecesValue(members[j].key)
  }

  ghost predicate ValidTree(format: NumberFormat, tree: Cst) {
    IsTree(tree) && Acceptable(format, tree)
  }

  ghost predicate ValidItem(format: NumberFormat, item: Item) {
    IsItem(item) && Acceptable(format, item.tree)
  }

  ghost predicate ValidMember(format: NumberFormat, member: Member) {
    IsMember(member) && AcceptableMember(format, member)
  }

  /** A string token that the parser takes. */
  predicate ValidPieces(pieces: seq<Piece>) {
    ArePieces(pieces) && Paired(pieces)
  }

  /** The value a tree denotes; only the values of acceptable trees matter. */
  function Denotes(format: NumberFormat, tree: Cst): Json
    decreases tree, 0
  {
    match tree
    case CNull => Null
    case CTrue => Bool(true)
    case CFalse => Bool(false)
    case CNumber(lexeme) => (match format(lexeme) case Some(printed) => Number(printed) case None => Null)
    case CString(pieces) => String(PiecesValue(pieces))
    case CArray(_, items) => Array(DenoteItems(format, items))
    case CObject(_, members) => Object(DenoteMembers(format, members))
  }

  function DenoteItems(format: NumberFormat, items: seq<Item>): (values: seq<Json>)
    decreases items, 0
  {
    if items == [] then [] else [Denotes(format, items[0].tree)] + DenoteItems(format, items[1..])
  }

  function DenoteMembers(format: NumberFormat, members: seq<Member>): map<string, Json>
    decreases members, 0
  {
    if members == [] then map[]
    else
      map[PiecesValue(members[0].key) := Denotes(format, members[0].item.tree)]
      + DenoteMembers(format, members[1..])
  }

  /** What it means for a whole text to spell a value. */
  ghost predicate Spells(format: NumberFormat, text: string, value: Json) {
    exists item :: ItemText(item) == text && ValidItem(format, item) && Denotes(format, item.tree) == value
  }
}
