/** The filter language collection rules are written in: comparisons joined by &&
    and ||, && binding tighter (migrations/000039_fix_workspace_type_immutability.go).
    Rules are printed as text and read back by the database. */
module Filter {
  import opened Results

  datatype Token = Open | Close | Word(text: string)

  /** A rule as written, parentheses included. */
  datatype Expr =
    | Cmp(lhs: string, op: string, rhs: string)
    | Group(inner: Expr)
    | And(first: Expr, rest: Expr)
    | Or(first: Expr, rest: Expr)

  const OPERATORS: set<string> := {"=", "!=", "~", "?="}

  // ------------------------------------------------------------------- printing

  function Compare(lhs: string, op: string, rhs: string): string {
    lhs + " " + op + " " + rhs
  }

  function Print(e: Expr): string {
    match e
    case Cmp(lhs, op, rhs) => Compare(lhs, op, rhs)
    case Group(inner) => "(" + Print(inner) + ")"
    case And(first, rest) => Print(first) + " && " + Print(rest)
    case Or(first, rest) => Print(first) + " || " + Print(rest)
  }

  predicate IsStop(c: char) { c == ' ' || c == '(' || c == ')' }

  /** A word without quotes, or one quoted from end to end. */
  predicate IsWord(w: string) {
    || (w != "" && w[0] != '\'' && forall i :: 0 <= i < |w| ==> !IsStop(w[i]))
    || (|w| >= 2 && w[0] == '\'' && w[|w| - 1] == '\'' && forall i :: 0 < i < |w| - 1 ==> w[i] != '\'')
  }

  predicate IsOperand(w: string) { IsWord(w) && w != "&&" && w != "||" }

  /** The trees that print as they parse: alternatives of conjunctions of factors. */
  predicate WellFormed(e: Expr) {
    match e
    case Cmp(lhs, op, rhs) => IsOperand(lhs) && op in OPERATORS && IsOperand(rhs)
    case Group(inner) => WellFormed(inner)
    case And(first, rest) => WellFormed(first) && WellFormed(rest) && (first.Cmp? || first.Group?) && !rest.Or?
    case Or(first, rest) => WellFormed(first) && WellFormed(rest) && !first.Or?
  }

  function Eval(e: Expr, holds: (string, string, string) -> bool): bool {
    match e
    case Cmp(lhs, op, rhs) => holds(lhs, op, rhs)
    case Group(inner) => Eval(inner, holds)
    case And(first, rest) => Eval(first, holds) && Eval(rest, holds)
    case Or(first, rest) => Eval(first, holds) || Eval(rest, holds)
  }

  // -------------------------------------------------------------------- reading

  /** The index of the first stop from i on, or the end. */
  function WordEnd(s: string, i: nat): (r: nat)
    requires i <= |s|
    ensures i <= r <= |s|
    ensures forall k :: i <= k < r ==> !IsStop(s[k])
    ensures r < |s| ==> IsStop(s[r])
    decreases |s| - i
  {
    if i == |s| || IsStop(s[i]) then i else WordEnd(s, i + 1)
  }

  /** The index after the first quote from i on, or the end. */
  function QuoteEnd(s: string, i: nat): (r: nat)
    requires i <= |s|
    ensures i <= r <= |s|
    ensures forall k :: i <= k < r - 1 ==> s[k] != '\''
    ensures r < |s| ==> r > i && s[r - 1] == '\''
    decreases |s| - i
  {
    if i == |s| then i else if s[i] == '\'' then i + 1 else QuoteEnd(s, i + 1)
  }

  function FirstWordEnd(s: string): (r: nat)
    requires s != "" && !IsStop(s[0])
    ensures 0 < r <= |s|
  {
    if s[0] == '\'' then QuoteEnd(s, 1) else WordEnd(s, 0)
  }

  function Lex(s: string): seq<Token>
    decreases |s|
  {
    if s == "" then []
    else if s[0] == ' ' then Lex(s[1..])
    else if s[0] == '(' then [Open] + Lex(s[1..])
    else if s[0] == ')' then [Close] + Lex(s[1..])
    else [Word(s[..FirstWordEnd(s)])] + Lex(s[FirstWordEnd(s)..])
  }

  type Parsed = Option<(Expr, seq<Token>)>

  function ParseExpr(ts: seq<Token>): (r: Parsed)
    ensures r.Some? ==> |r.value.1| < |ts|
    decreases |ts|, 2
  {
    match ParseTerm(ts)
    case None => None
    case Some((first, rest)) =>
      if rest == [] || rest[0] != Word("||") then Some((first, rest))
      else match ParseExpr(rest[1..])
        case None => None
        case Some((more, left)) => Some((Or(first, more), left))
  }

  function ParseTerm(ts: seq<Token>): (r: Parsed)
    ensures r.Some? ==> |r.value.1| < |ts|
    decreases |ts|, 1
  {
    match ParseFactor(ts)
    case None => None
    case Some((first, rest)) =>
      if rest == [] || rest[0] != Word("&&") then Some((first, rest))
      else match ParseTerm(rest[1..])
        case None => None
        case Some((more, left)) => Some((And(first, more), left))
  }

  function ParseFactor(ts: seq<Token>): (r: Parsed)
    ensures r.Some? ==> |r.value.1| < |ts|
    decreases |ts|, 0
  {
    if ts == [] then None
    else if ts[0] == Open then
      match ParseExpr(ts[1..])
      case None => None
      case Some((inner, rest)) => if rest == [] || rest[0] != Close then None else Some((Group(inner), rest[1..]))
    else if |ts| < 3 || !ts[0].Word? || !ts[1].Word? || !ts[2].Word? then None
    else if ts[1].text !in OPERATORS || !IsOperand(ts[0].text) || !IsOperand(ts[2].text) then None
    else Some((Cmp(ts[0].text, ts[1].text, ts[2].text), ts[3..]))
  }

  function Parse(s: string): Option<Expr> {
    var r := ParseExpr(Lex(s));
    if r.Some? && r.value.1 == [] then Some(r.value.0) else None
  }

  // --------------------------------------------------- printed, read, the same

  function Tokens(e: Expr): seq<Token> {
    match e
    case Cmp(lhs, op, rhs) => [Word(lhs), Word(op), Word(rhs)]
    case Group(inner) => [Open] + Tokens(inner) + [Close]
    case And(first, rest) => Tokens(first) + [Word("&&")] + Tokens(rest)
    case Or(first, rest) => Tokens(first) + [Word("||")] + Tokens(rest)
  }

  lemma LexWord(w: string, s: string)
    requires IsWord(w) && (s == "" || IsStop(s[0]))
    ensures Lex(w + s) == [Word(w)] + Lex(s)
  {
    var t := w + s;
    assert t[0] == w[0] && |t| == |w| + |s|;
    assert forall i :: 0 <= i < |w| ==> t[i] == w[i];
    assert s != "" ==> t[|w|] == s[0];
    assert !IsStop(t[0]);
    var n := FirstWordEnd(t);
    assert n == |w|;
    assert t[..n] == w && t[n..] == s;
  }

  lemma LexSpace(s: string)
    ensures Lex(" " + s) == Lex(s)
  {
    assert (" " + s)[1..] == s;
  }

  lemma LexSpaced(w: string, s: string)
    requires IsWord(w)
    ensures Lex(w + (" " + s)) == [Word(w)] + Lex(s)
  {
    LexWord(w, " " + s);
    LexSpace(s);
  }

  lemma LexClose(s: string)
    ensures Lex(")" + s) == [Close] + Lex(s)
  {
    assert (")" + s)[1..] == s;
  }

  lemma LexOpen(s: string)
    ensures Lex("(" + s) == [Open] + Lex(s)
  {
    assert ("(" + s)[1..] == s;
  }

  lemma LexJoin(join: string, s: string)
    requires join == "&&" || join == "||"
    ensures Lex(" " + join + " " + s) == [Word(join)] + Lex(s)
  {
    assert IsWord(join);
    LexSpaced(join, s);
    LexSpace(join + (" " + s));
    assert " " + join + " " + s == " " + (join + (" " + s));
  }

  /** A printed piece lexes to its tokens, whatever stop follows it. */
  ghost predicate LexesTo(text: string, ts: seq<Token>) {
    forall s :: s == "" || IsStop(s[0]) ==> Lex(text + s) == ts + Lex(s)
  }

  lemma CmpLexes(lhs: string, op: string, rhs: string)
    requires IsWord(lhs) && IsWord(op) && IsWord(rhs)
    ensures LexesTo(lhs + " " + op + " " + rhs, [Word(lhs), Word(op), Word(rhs)])
  {
    hide Lex, IsWord;
    forall s: string | s == "" || IsStop(s[0])
      ensures Lex(lhs + " " + op + " " + rhs + s) == [Word(lhs), Word(op), Word(rhs)] + Lex(s)
    {
      LexWord(rhs, s);
      LexSpaced(op, rhs + s);
      LexSpaced(lhs, op + (" " + (rhs + s)));
      assert lhs + " " + op + " " + rhs + s == lhs + (" " + (op + (" " + (rhs + s))));
    }
  }

  lemma GroupLexes(text: string, ts: seq<Token>)
    requires LexesTo(text, ts)
    ensures LexesTo("(" + text + ")", [Open] + ts + [Close])
  {
    hide Lex;
    forall s: string | s == "" || IsStop(s[0]) ensures Lex("(" + text + ")" + s) == [Open] + ts + [Close] + Lex(s) {
      LexClose(s);
      LexOpen(text + (")" + s));
      assert "(" + text + ")" + s == "(" + (text + (")" + s));
    }
  }

  lemma JoinLexes(a: string, ta: seq<Token>, join: string, b: string, tb: seq<Token>)
    requires LexesTo(a, ta) && LexesTo(b, tb) && (join == "&&" || join == "||")
    ensures LexesTo(a + " " + join + " " + b, ta + [Word(join)] + tb)
  {
    hide Lex;
    forall s: string | s == "" || IsStop(s[0])
      ensures Lex(a + " " + join + " " + b + s) == ta + [Word(join)] + tb + Lex(s)
    {
      LexJoin(join, b + s);
      var rest := " " + join + " " + (b + s);
      assert IsStop(rest[0]);
      assert Lex(a + rest) == ta + Lex(rest);
      assert a + " " + join + " " + b + s == a + rest;
    }
  }

  lemma {:induction false} LexPrint(e: Expr)
    requires WellFormed(e)
    ensures LexesTo(Print(e), Tokens(e))
  {
    hide LexesTo, IsWord;
    match e
    case Cmp(lhs, op, rhs) =>
      OperatorsAreWords(op);
      CmpLexes(lhs, op, rhs);
    case Group(inner) =>
      LexPrint(inner);
      GroupLexes(Print(inner), Tokens(inner));
    case And(first, rest) =>
      LexPrint(first);
      LexPrint(rest);
      JoinLexes(Print(first), Tokens(first), "&&", Print(rest), Tokens(rest));
      assert Print(first) + " " + "&&" + " " + Print(rest) == Print(e);
    case Or(first, rest) =>
      LexPrint(first);
      LexPrint(rest);
      JoinLexes(Print(first), Tokens(first), "||", Print(rest), Tokens(rest));
      assert Print(first) + " " + "||" + " " + Print(rest) == Print(e);
  }

  lemma OperatorsAreWords(op: string)
    requires op in OPERATORS
    ensures IsWord(op)
  {
  }

  lemma {:induction false} ParseFactorTokens(e: Expr, rest: seq<Token>)
    requires WellFormed(e) && (e.Cmp? || e.Group?)
    ensures ParseFactor(Tokens(e) + rest) == Some((e, rest))
    decreases e, 0
  {
    hide IsOperand;
    var ts := Tokens(e) + rest;
    match e
    case Cmp(lhs, op, rhs) => assert ts[3..] == rest;
    case Group(inner) =>
      ParseExprTokens(inner, [Close] + rest);
      assert ts[1..] == Tokens(inner) + ([Close] + rest);
      assert ([Close] + rest)[1..] == rest;
  }

  lemma {:induction false} ParseTermTokens(e: Expr, rest: seq<Token>)
    requires WellFormed(e) && !e.Or? && (rest == [] || rest[0] != Word("&&"))
    ensures ParseTerm(Tokens(e) + rest) == Some((e, rest))
    decreases e, 1
  {
    hide IsOperand, ParseFactor;
    if e.And? {
      ParseFactorTokens(e.first, [Word("&&")] + (Tokens(e.rest) + rest));
      assert Tokens(e) + rest == Tokens(e.first) + ([Word("&&")] + (Tokens(e.rest) + rest));
      assert ([Word("&&")] + (Tokens(e.rest) + rest))[1..] == Tokens(e.rest) + rest;
      ParseTermTokens(e.rest, rest);
    } else {
      ParseFactorTokens(e, rest);
    }
  }

  lemma {:induction false} ParseExprTokens(e: Expr, rest: seq<Token>)
    requires WellFormed(e) && (rest == [] || rest[0] == Close)
    ensures ParseExpr(Tokens(e) + rest) == Some((e, rest))
    decreases e, 2
  {
    hide IsOperand, ParseTerm;
    if e.Or? {
      ParseTermTokens(e.first, [Word("||")] + (Tokens(e.rest) + rest));
      assert Tokens(e) + rest == Tokens(e.first) + ([Word("||")] + (Tokens(e.rest) + rest));
      assert ([Word("||")] + (Tokens(e.rest) + rest))[1..] == Tokens(e.rest) + rest;
      ParseExprTokens(e.rest, rest);
    } else {
      ParseTermTokens(e, rest);
    }
  }

  /** Every rule reads back as it was written. */
  lemma ParsePrint(e: Expr)
    requires WellFormed(e)
    ensures Parse(Print(e)) == Some(e)
  {
    hide Lex, ParseExpr;
    LexPrint(e);
    assert Print(e) + "" == Print(e);
    assert Lex(Print(e) + "") == Tokens(e) + Lex("");
    assert Lex("") == [] by { LexEmpty(); }
    ParseExprTokens(e, []);
    assert Tokens(e) + [] == Tokens(e);
  }

  lemma LexEmpty()
    ensures Lex("") == []
  {
  }

  // ---------------------------------------------------- a clause joined to a rule

  /** What `(base) && extra` is: && reaches no further than extra's first alternative. */
  function Attach(base: Expr, extra: Expr): Expr {
    if extra.Or? then Or(And(Group(base), extra.first), extra.rest) else And(Group(base), extra)
  }

  lemma AttachPrints(base: Expr, extra: Expr)
    requires WellFormed(base) && WellFormed(extra)
    ensures WellFormed(Attach(base, extra))
    ensures Print(Attach(base, extra)) == "(" + Print(base) + ") && " + Print(extra)
  {
    var open := "(" + Print(base) + ")";
    assert open + " && " == "(" + Print(base) + ") && ";
    if extra.Or? {
      assert open + " && " + Print(extra.first) + " || " + Print(extra.rest) == open + " && " + Print(extra);
    }
  }

  /** The clause holds of the whole rule exactly when it has no alternative of its
      own that holds where the rule does not. */
  lemma AttachMeans(base: Expr, extra: Expr, holds: (string, string, string) -> bool)
    ensures Eval(Attach(base, extra), holds) == (Eval(base, holds) && Eval(extra, holds))
            <==> (extra.Or? ==> Eval(base, holds) || !Eval(extra.rest, holds))
  {
    assert Eval(Group(base), holds) == Eval(base, holds);
    if extra.Or? {
      assert Eval(And(Group(base), extra.first), holds) == (Eval(base, holds) && Eval(extra.first, holds));
    }
  }

  /** Written without the parentheses, the clause reaches the last branch only. */
  lemma UnparenthesizedClauseReachesLastBranch(users: Expr, keys: Expr, extra: Expr)
    requires WellFormed(users) && WellFormed(keys) && WellFormed(extra)
    requires !users.Or? && (keys.Cmp? || keys.Group?) && !extra.Or?
    ensures Parse(Print(Or(users, keys)) + " && " + Print(extra)) == Some(Or(users, And(keys, extra)))
  {
    hide Parse;
    ParsePrint(Or(users, And(keys, extra)));
    assert Print(Or(users, keys)) + " && " + Print(extra) == Print(Or(users, And(keys, extra)));
  }
}
