/**
 Traefik router rules: their syntax trees, the texts that spell them, and what they accept.

 `&&` binds tighter than `||`, `!` tighter still. A text spells a tree when it can be cut into
 pieces - lexemes and single spaces - whose lexemes are the tree's, in order.
 */
module TraefikRule {
  import opened Texts

  datatype Rule =
    | Matcher(name: string, args: seq<string>)
    | Not(rule: Rule)
    | Paren(rule: Rule)
    | And(left: Rule, right: Rule)
    | Or(left: Rule, right: Rule)

  datatype Piece =
    | Space(c: char)
    | Name(name: string)
    | Str(quote: char, value: string)
    | LP | RP | Comma | AndOp | OrOp | NotOp

  predicate IsLetter(c: char) {
    'A' <= c <= 'Z' || 'a' <= c <= 'z'
  }

  /** The white space both Go and Python skip. */
  predicate IsBlank(c: char) {
    c in {' ', '\t', '\n', '\r'}
  }

  predicate Letters(s: string) {
    s != "" && forall i | 0 <= i < |s| :: IsLetter(s[i])
  }

  // ── Meaning ──────────────────────────────────────────────────────────────────────────────────

  /** A request, as far as rules see it; `other` decides the matchers that are not spelled out. */
  datatype Request = Request(host: string, path: string, other: (string, seq<string>) -> bool)

  predicate Accepts(rule: Rule, request: Request) {
    match rule
    case Matcher(name, args) =>
      if name == "Host" then exists i :: 0 <= i < |args| && Lower(args[i]) == Lower(request.host)
      else if name == "Path" then exists i :: 0 <= i < |args| && args[i] == request.path
      else if name == "PathPrefix" then exists i :: 0 <= i < |args| && args[i] <= request.path
      else request.other(name, args)
    case Not(r) => !Accepts(r, request)
    case Paren(r) => Accepts(r, request)
    case And(l, r) => Accepts(l, request) && Accepts(r, request)
    case Or(l, r) => Accepts(l, request) || Accepts(r, request)
  }

  // ── Syntax ───────────────────────────────────────────────────────────────────────────────────

  predicate IsUnary(rule: Rule)
    decreases rule, 0
  {
    match rule
    case Matcher(name, args) => Letters(name) && args != []
    case Not(r) => IsUnary(r)
    case Paren(r) => IsRule(r)
    case _ => false
  }

  predicate IsConjunction(rule: Rule)
    decreases rule, 1
  {
    if rule.And? then IsConjunction(rule.left) && IsUnary(rule.right) else IsUnary(rule)
  }

  /** A well-formed rule: a disjunction of conjunctions of unary terms. */
  predicate IsRule(rule: Rule)
    decreases rule, 2
  {
    if rule.Or? then IsRule(rule.left) && IsConjunction(rule.right) else IsConjunction(rule)
  }

  /** Whether the lexemes are a matcher's arguments, in either quotation, between commas. */
  predicate AreArguments(lexemes: seq<Piece>, args: seq<string>) {
    && args != [] && lexemes != [] && lexemes[0].Str? && lexemes[0].value == args[0]
    && if |args| == 1 then |lexemes| == 1
       else |lexemes| >= 2 && lexemes[1].Comma? && AreArguments(lexemes[2..], args[1..])
  }

  /** Whether the lexemes are those of the rule, in order. */
  ghost predicate Spells(lexemes: seq<Piece>, rule: Rule)
    decreases rule
  {
    match rule
    case Matcher(name, args) =>
      && |lexemes| >= 4 && lexemes[0] == Name(name) && lexemes[1] == LP && lexemes[|lexemes| - 1] == RP
      && AreArguments(lexemes[2..|lexemes| - 1], args)
    case Not(r) => |lexemes| >= 1 && lexemes[0] == NotOp && Spells(lexemes[1..], r)
    case Paren(r) =>
      |lexemes| >= 2 && lexemes[0] == LP && lexemes[|lexemes| - 1] == RP && Spells(lexemes[1..|lexemes| - 1], r)
    case And(l, r) =>
      exists k :: 0 <= k < |lexemes| && lexemes[k] == AndOp && Spells(lexemes[..k], l) && Spells(lexemes[k + 1..], r)
    case Or(l, r) =>
      exists k :: 0 <= k < |lexemes| && lexemes[k] == OrOp && Spells(lexemes[..k], l) && Spells(lexemes[k + 1..], r)
  }

  function PieceText(p: Piece): string {
    match p
    case Space(c) => [c]
    case Name(name) => name
    case Str(quote, value) => [quote] + value + [quote]
    case LP => "("
    case RP => ")"
    case Comma => ","
    case AndOp => "&&"
    case OrOp => "||"
    case NotOp => "!"
  }

  predicate ValidPiece(p: Piece) {
    match p
    case Space(c) => IsBlank(c)
    case Name(name) => Letters(name)
    case Str(quote, value) => (quote == '`' || quote == '"') && quote !in value
    case _ => true
  }

  /** Pieces as a lexer cuts them: a name goes on as long as there are letters. */
  predicate ValidPieces(ps: seq<Piece>) {
    && (forall i | 0 <= i < |ps| :: ValidPiece(ps[i]))
    && (forall i | 0 <= i < |ps| - 1 :: ps[i].Name? ==> !ps[i + 1].Name?)
  }

  function PiecesText(ps: seq<Piece>): string {
    if ps == [] then "" else PieceText(ps[0]) + PiecesText(ps[1..])
  }

  function Lexemes(ps: seq<Piece>): seq<Piece> {
    if ps == [] then []
    else if ps[0].Space? then Lexemes(ps[1..])
    else [ps[0]] + Lexemes(ps[1..])
  }

  /** `text` is a spelling of the well-formed rule. */
  ghost predicate IsText(text: string, rule: Rule, ps: seq<Piece>) {
    IsRule(rule) && ValidPieces(ps) && PiecesText(ps) == text && Spells(Lexemes(ps), rule)
  }
}
