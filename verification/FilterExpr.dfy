/** The Consul ?filter language (internal/consul/filter.go): tokenizer, recursive-descent
    parser, and the round trip through printing. Text is a sequence of bytes; letter case is
    folded for ASCII letters. */
module FilterExpr {
  import opened Model
  import opened Text

  // ---- characters and words ----

  predicate Delimiter(c: char) {
    c == ' ' || c == '\t' || c == '(' || c == ')' || c == '\"'
  }

  // ---- tokenizer ----

  /** The first quote at or after `j`, or the end. */
  function QuoteFrom(s: string, j: nat): (e: nat)
    requires j <= |s|
    ensures j <= e <= |s|
    decreases |s| - j
  {
    if j == |s| || s[j] == '\"' then j else QuoteFrom(s, j + 1)
  }

  /** The first delimiter at or after `j`, or the end. */
  function DelimiterFrom(s: string, j: nat): (e: nat)
    requires j <= |s|
    ensures j <= e <= |s|
    decreases |s| - j
  {
    if j == |s| || Delimiter(s[j]) then j else DelimiterFrom(s, j + 1)
  }

  /** The length of the token at the front of `s`, which does not start with a blank. */
  function TokenLength(s: string): (n: nat)
    requires s != [] && s[0] != ' ' && s[0] != '\t'
    ensures 1 <= n <= |s|
  {
    if s[0] == '(' || s[0] == ')' then 1
    else if s[0] == '\"' then var j := QuoteFrom(s, 1); if j < |s| then j + 1 else |s|
    else if s[0] == '=' || s[0] == '!' then if |s| > 1 && s[1] == '=' then 2 else 1
    else DelimiterFrom(s, 1)
  }

  function Tokens(s: string): seq<string>
    decreases |s|
  {
    if s == [] then []
    else if s[0] == ' ' || s[0] == '\t' then Tokens(s[1..])
    else [s[..TokenLength(s)]] + Tokens(s[TokenLength(s)..])
  }

  method Tokenize(s: string) returns (tokens: seq<string>)
    ensures tokens == Tokens(s)
  {
    tokens := [];
    var i := 0;
    assert s[0..] == s;
    while i < |s|
      invariant 0 <= i <= |s|
      invariant tokens + Tokens(s[i..]) == Tokens(s)
      decreases |s| - i
    {
      if s[i] == ' ' || s[i] == '\t' {
        assert s[i..][1..] == s[i + 1..];
        i := i + 1;
      } else {
        var n := NextToken(s, i);
        NextTokens(s, i, tokens, n);
        tokens := tokens + [s[i..i + n]];
        i := i + n;
      }
    }
    assert s[i..] == [];
  }

  lemma NextTokens(s: string, i: nat, tokens: seq<string>, n: nat)
    requires i < |s| && s[i] != ' ' && s[i] != '\t' && n == TokenLength(s[i..]) && i + n <= |s|
    ensures tokens + [s[i..i + n]] + Tokens(s[i + n..]) == tokens + Tokens(s[i..])
  {
    var rest := s[i..];
    assert rest[..n] == s[i..i + n] && rest[n..] == s[i + n..];
  }

  /** The length of the token starting at `i`. */
  method NextToken(s: string, i: nat) returns (n: nat)
    requires i < |s| && s[i] != ' ' && s[i] != '\t'
    ensures n == TokenLength(s[i..]) && i + n <= |s|
  {
    var c := s[i];
    if c == '(' || c == ')' {
      n := 1;
    } else if c == '\"' {
      var j := FindQuote(s, i);
      n := (if j + 1 < |s| then j + 1 else |s|) - i;
    } else if c == '=' || c == '!' {
      n := if i + 1 < |s| && s[i + 1] == '=' then 2 else 1;
    } else {
      var j := FindDelimiter(s, i);
      n := j - i;
    }
  }

  method FindQuote(s: string, i: nat) returns (j: nat)
    requires i < |s|
    ensures i + 1 <= j <= |s| && j - i == QuoteFrom(s[i..], 1)
  {
    j := i + 1;
    while j < |s| && s[j] != '\"'
      invariant i + 1 <= j <= |s|
      invariant QuoteFrom(s[i..], 1) == QuoteFrom(s[i..], j - i)
    {
      j := j + 1;
    }
  }

  method FindDelimiter(s: string, i: nat) returns (j: nat)
    requires i < |s|
    ensures i + 1 <= j <= |s| && j - i == DelimiterFrom(s[i..], 1)
  {
    j := i + 1;
    while j < |s| && !Delimiter(s[j])
      invariant i + 1 <= j <= |s|
      invariant DelimiterFrom(s[i..], 1) == DelimiterFrom(s[i..], j - i)
    {
      j := j + 1;
    }
  }

  // ---- what the tokens are ----

  /** `t` is one token of a text that goes on with `rest`: a parenthesis, a text in quotes (or to
      the end, when the closing quote is missing), an operator sign, or a word as long as it
      goes. */
  predicate Lexeme(t: string, rest: string) {
    || t == "(" || t == ")"
    || t == "==" || t == "!="
    || ((t == "=" || t == "!") && (rest == [] || rest[0] != '='))
    || (t != [] && t[0] == '\"' && '\"' !in t[1..] && rest == [])
    || (|t| >= 2 && t[0] == '\"' && '\"' !in t[1..|t| - 1] && t[|t| - 1] == '\"')
    || (Word(t) && (rest == [] || Delimiter(rest[0])))
  }

  /** `ts` are the tokens of `s`: nothing but blanks is left out between them. */
  ghost predicate Lexes(s: string, ts: seq<string>)
    decreases |s|
  {
    if s == [] then ts == []
    else if s[0] == ' ' || s[0] == '\t' then Lexes(s[1..], ts)
    else ts != [] && ts[0] != [] && ts[0] <= s && Lexeme(ts[0], s[|ts[0]|..]) && Lexes(s[|ts[0]|..], ts[1..])
  }

  lemma {:induction false} FirstQuote(s: string, j: nat)
    requires j <= |s|
    ensures var e := QuoteFrom(s, j);
            '\"' !in s[j..e] && (e < |s| ==> s[e] == '\"')
    decreases |s| - j
  {
    if j < |s| && s[j] != '\"' {
      FirstQuote(s, j + 1);
      assert s[j..QuoteFrom(s, j)] == [s[j]] + s[j + 1..QuoteFrom(s, j)];
    }
  }

  lemma {:induction false} FirstDelimiter(s: string, j: nat)
    requires j <= |s|
    ensures var e := DelimiterFrom(s, j);
            (forall i | j <= i < e :: !Delimiter(s[i])) && (e < |s| ==> Delimiter(s[e]))
    decreases |s| - j
  {
    if j < |s| && !Delimiter(s[j]) {
      FirstDelimiter(s, j + 1);
    }
  }

  /** The token at the front of a text is a lexeme, and the only one. */
  lemma TokenIsLexeme(s: string)
    requires s != [] && s[0] != ' ' && s[0] != '\t'
    ensures Lexeme(s[..TokenLength(s)], s[TokenLength(s)..])
  {
    var n := TokenLength(s);
    var t := s[..n];
    FirstQuote(s, 1);
    FirstDelimiter(s, 1);
    if s[0] == '(' || s[0] == ')' {
      assert t == [s[0]];
    } else if s[0] == '\"' {
      var j := QuoteFrom(s, 1);
      if j < |s| {
        assert t[1..|t| - 1] == s[1..j];
      } else {
        assert t[1..] == s[1..j];
      }
    } else if s[0] == '=' || s[0] == '!' {
      assert t == if n == 2 then [s[0], '='] else [s[0]];
    } else {
      assert forall i | 0 <= i < |t| :: t[i] == s[i];
    }
  }

  lemma LexemeIsToken(s: string, n: nat)
    requires s != [] && s[0] != ' ' && s[0] != '\t' && 1 <= n <= |s| && Lexeme(s[..n], s[n..])
    ensures n == TokenLength(s)
  {
    var t, rest := s[..n], s[n..];
    assert t[0] == s[0] && (n < |s| ==> rest[0] == s[n]);
    if s[0] == '\"' {
      QuotedLength(s, n);
    } else if s[0] == '(' || s[0] == ')' {
      assert !Word(t);
    } else if s[0] == '=' || s[0] == '!' {
      assert n == 2 ==> t[1] == s[1];
    } else {
      WordLength(s, n);
    }
  }

  lemma QuotedLength(s: string, n: nat)
    requires 1 <= n <= |s| && s[0] == '\"' && Lexeme(s[..n], s[n..])
    ensures n == TokenLength(s)
  {
    var t := s[..n];
    FirstQuote(s, 1);
    var j := QuoteFrom(s, 1);
    assert !Word(t) by {
      assert Delimiter(t[0]);
    }
    if n < |s| || '\"' in t[1..] {
      assert forall i | 1 <= i < n - 1 :: s[i] == t[1..n - 1][i - 1];
      assert s[n - 1] == '\"';
      assert forall i | 1 <= i < j :: s[i] == s[1..j][i - 1];
    } else {
      assert forall i | 1 <= i < n :: s[i] == t[1..][i - 1];
    }
  }

  lemma WordLength(s: string, n: nat)
    requires 1 <= n <= |s| && !Delimiter(s[0]) && s[0] != '=' && s[0] != '!' && Lexeme(s[..n], s[n..])
    ensures n == TokenLength(s)
  {
    var t := s[..n];
    FirstDelimiter(s, 1);
    assert t[0] == s[0];
    assert Word(t);
    assert forall i | 0 <= i < n :: t[i] == s[i];
  }

  /** The tokenizer's result is the one way to read the text as lexemes. */
  lemma {:induction false} TokensExactly(s: string, ts: seq<string>)
    ensures ts == Tokens(s) <==> Lexes(s, ts)
    decreases |s|
  {
    if s != [] {
      if s[0] == ' ' || s[0] == '\t' {
        TokensExactly(s[1..], ts);
      } else {
        var n := TokenLength(s);
        TokenIsLexeme(s);
        if ts != [] {
          TokensExactly(s[n..], ts[1..]);
          assert ts == [ts[0]] + ts[1..];
          if Lexes(s, ts) {
            assert ts[0] == s[..|ts[0]|];
            LexemeIsToken(s, |ts[0]|);
          }
        }
      }
    }
  }

  // ---- expressions and their meaning ----

  /** A parsed filter, as a tree; the parser itself builds closures that mean the same. */
  datatype Expr =
    | Or(left: Expr, right: Expr)
    | And(left: Expr, right: Expr)
    | Not(inner: Expr)
    | Eq(selector: string, value: string)
    | Neq(selector: string, value: string)
    | Contains(selector: string, value: string)
    | In(value: string, selector: string)

  /** What a filter can see of an entry. */
  datatype View = View(tags: seq<string>, meta: map<string, string>, statuses: seq<string>)

  predicate HasPrefixFold(s: string, prefix: string) {
    |s| >= |prefix| && EqualFold(s[..|prefix|], prefix)
  }

  predicate ScalarEq(v: View, selector: string, val: string) {
    if EqualFold(selector, "Checks.Status") then val in v.statuses
    else if HasPrefixFold(selector, "ServiceMeta.") then
      var key := selector[|"ServiceMeta."|..];
      (if key in v.meta then v.meta[key] else "") == val
    else false
  }

  predicate ListHas(v: View, selector: string, val: string) {
    if EqualFold(selector, "ServiceTags") then val in v.tags
    else if EqualFold(selector, "Checks.Status") then val in v.statuses
    else false
  }

  predicate Eval(e: Expr, v: View) {
    match e
    case Or(l, r) => Eval(l, v) || Eval(r, v)
    case And(l, r) => Eval(l, v) && Eval(r, v)
    case Not(x) => !Eval(x, v)
    case Eq(s, val) => ScalarEq(v, s, val)
    case Neq(s, val) => !ScalarEq(v, s, val)
    case Contains(s, val) => ListHas(v, s, val)
    case In(val, s) => ListHas(v, s, val)
  }

  // ---- the meaning, by laws ----

  /** The views a filter holds of, as a set: disjunction is union, conjunction is intersection
      and negation is complement; the atoms hold of what they say of a view. */
  ghost function Denotes(e: Expr): iset<View> {
    match e
    case Or(l, r) => Denotes(l) + Denotes(r)
    case And(l, r) => Denotes(l) * Denotes(r)
    case Not(x) => (iset v: View | v !in Denotes(x))
    case Eq(s, val) => (iset v: View | Says(s, v, val))
    case Neq(s, val) => (iset v: View | !Says(s, v, val))
    case Contains(s, val) => (iset v: View | Lists(s, v, val))
    case In(val, s) => (iset v: View | Lists(s, v, val))
  }

  /** In any letter case: `ServiceMeta.k` says its value, empty if there is none, and
      `Checks.Status` says each status. Other selectors say nothing. */
  predicate Says(selector: string, v: View, val: string) {
    || (EqualFold(selector, "Checks.Status") && val in v.statuses)
    || (|selector| >= 12 && EqualFold(selector[..12], "ServiceMeta.") &&
        (if selector[12..] in v.meta then v.meta[selector[12..]] == val else val == ""))
  }

  /** In any letter case: `ServiceTags` lists the tags, `Checks.Status` the statuses. */
  predicate Lists(selector: string, v: View, val: string) {
    || (EqualFold(selector, "ServiceTags") && val in v.tags)
    || (EqualFold(selector, "Checks.Status") && val in v.statuses)
  }

  lemma FoldsDiffer(s: string)
    ensures !(EqualFold(s, "ServiceTags") && EqualFold(s, "Checks.Status"))
    ensures |s| >= 12 ==> !(EqualFold(s, "Checks.Status") && EqualFold(s[..12], "ServiceMeta."))
  {
    assert ToLower("ServiceTags")[0] == 's' && ToLower("Checks.Status")[0] == 'c' && ToLower("ServiceMeta.")[0] == 's';
    if |s| >= 12 {
      assert ToLower(s)[0] == ToLower(s[..12])[0];
    }
  }

  lemma AtomLaws(selector: string, v: View, val: string)
    ensures ScalarEq(v, selector, val) <==> Says(selector, v, val)
    ensures ListHas(v, selector, val) <==> Lists(selector, v, val)
  {
    FoldsDiffer(selector);
    assert |"ServiceMeta."| == 12;
  }

  /** The verdict of a filter on a view is membership in what it denotes. */
  lemma {:induction false} EvalDenotes(e: Expr, v: View)
    ensures Eval(e, v) <==> v in Denotes(e)
  {
    match e
    case Or(l, r) =>
      EvalDenotes(l, v);
      EvalDenotes(r, v);
    case And(l, r) =>
      EvalDenotes(l, v);
      EvalDenotes(r, v);
    case Not(x) => EvalDenotes(x, v);
    case _ => AtomLaws(e.selector, v, e.value);
  }

  // ---- parser ----

  datatype Parsed = Error | Done(expr: Expr, pos: nat)

  function Peek(ts: seq<string>, pos: nat): string {
    if pos < |ts| then ts[pos] else ""
  }

  predicate Keyword(ts: seq<string>, pos: nat, word: string) {
    pos < |ts| && EqualFold(ts[pos], word)
  }

  function Remaining(ts: seq<string>, pos: nat): nat {
    if pos < |ts| then |ts| - pos else 0
  }

  function Unquote(s: string): string {
    if |s| >= 2 && s[0] == '\"' && s[|s| - 1] == '\"' then s[1..|s| - 1] else s
  }

  function ParseOr(ts: seq<string>, pos: nat): (p: Parsed)
    ensures p.Done? ==> p.pos > pos
    decreases Remaining(ts, pos), 5
  {
    match ParseAnd(ts, pos)
    case Error => Error
    case Done(left, at) => OrTail(ts, left, at)
  }

  function OrTail(ts: seq<string>, left: Expr, pos: nat): (p: Parsed)
    ensures p.Done? ==> p.pos >= pos
    decreases Remaining(ts, pos), 0
  {
    if !Keyword(ts, pos, "or") then Done(left, pos)
    else
      match ParseAnd(ts, pos + 1)
      case Error => Error
      case Done(right, at) => OrTail(ts, Or(left, right), at)
  }

  function ParseAnd(ts: seq<string>, pos: nat): (p: Parsed)
    ensures p.Done? ==> p.pos > pos
    decreases Remaining(ts, pos), 4
  {
    match ParseNot(ts, pos)
    case Error => Error
    case Done(left, at) => AndTail(ts, left, at)
  }

  function AndTail(ts: seq<string>, left: Expr, pos: nat): (p: Parsed)
    ensures p.Done? ==> p.pos >= pos
    decreases Remaining(ts, pos), 0
  {
    if !Keyword(ts, pos, "and") then Done(left, pos)
    else
      match ParseNot(ts, pos + 1)
      case Error => Error
      case Done(right, at) => AndTail(ts, And(left, right), at)
  }

  function ParseNot(ts: seq<string>, pos: nat): (p: Parsed)
    ensures p.Done? ==> p.pos > pos
    decreases Remaining(ts, pos), 3
  {
    if Keyword(ts, pos, "not") then
      match ParseNot(ts, pos + 1)
      case Error => Error
      case Done(x, at) => Done(Not(x), at)
    else ParsePrimary(ts, pos)
  }

  function ParsePrimary(ts: seq<string>, pos: nat): (p: Parsed)
    ensures p.Done? ==> p.pos > pos
    decreases Remaining(ts, pos), 2
  {
    if Peek(ts, pos) == "(" then
      match ParseOr(ts, pos + 1)
      case Error => Error
      case Done(x, at) => if Peek(ts, at) == ")" then Done(x, at + 1) else Error
    else ParsePredicate(ts, pos)
  }

  /** `selector op value`, or `value in selector`. Reading past the end yields empty tokens
      but still advances, so that the trailing-token test rejects the input. */
  function ParsePredicate(ts: seq<string>, pos: nat): (p: Parsed)
    ensures p.Done? ==> p.pos == pos + 3
  {
    var left, op, right := Peek(ts, pos), Peek(ts, pos + 1), Peek(ts, pos + 2);
    if left == "" || op == "" then Error
    else if ToLower(op) == "==" then Done(Eq(left, Unquote(right)), pos + 3)
    else if ToLower(op) == "!=" then Done(Neq(left, Unquote(right)), pos + 3)
    else if ToLower(op) == "contains" then Done(Contains(left, Unquote(right)), pos + 3)
    else if ToLower(op) == "in" then Done(In(Unquote(left), right), pos + 3)
    else Error
  }

  /** A filter text parses to an expression or not at all. */
  function ParseFilter(s: string): Option<Expr> {
    match ParseOr(Tokens(s), 0)
    case Error => None
    case Done(e, at) => if at == |Tokens(s)| then Some(e) else None
  }

  /** The closures the parser builds. */
  type Filter = View -> bool

  ghost predicate Decides(f: Filter, e: Expr) {
    forall v :: f(v) <==> Eval(e, v)
  }

  function Either(l: Filter, r: Filter): Filter {
    v => l(v) || r(v)
  }

  function Both(l: Filter, r: Filter): Filter {
    v => l(v) && r(v)
  }

  function Complement(f: Filter): Filter {
    v => !f(v)
  }

  class Parser {
    const tokens: seq<string>
    var pos: nat

    constructor (ts: seq<string>)
      ensures tokens == ts && pos == 0
    {
      tokens, pos := ts, 0;
    }

    /** The outcome of one parsing method, against its specification: an error, or a closure
        with the verdicts of the tree. */
    ghost predicate Agrees(r: Option<Filter>, p: Parsed)
      reads this
    {
      if p.Error? then r.None? else r.Some? && Decides(r.value, p.expr) && pos == p.pos
    }

    method Next() returns (t: string)
      modifies this`pos
      ensures t == Peek(tokens, old(pos)) && pos == old(pos) + 1
    {
      t := Peek(tokens, pos);
      pos := pos + 1;
    }

    method Disjunction() returns (r: Option<Filter>)
      modifies this`pos
      ensures Agrees(r, ParseOr(tokens, old(pos)))
      decreases Remaining(tokens, pos), 5
    {
      ghost var p := ParseAnd(tokens, pos);
      r := Conjunction();
      if r.None? {
        return;
      }
      ghost var e := p.expr;
      while EqualFold(Peek(tokens, pos), "or")
        invariant r.Some? && Decides(r.value, e) && pos > old(pos)
        invariant ParseOr(tokens, old(pos)) == OrTail(tokens, e, pos)
        decreases Remaining(tokens, pos)
      {
        EmptyIsNoKeyword();
        var _ := Next();
        p := ParseAnd(tokens, pos);
        var right := Conjunction();
        if right.None? {
          return None;
        }
        r := Some(Either(r.value, right.value));
        e := Or(e, p.expr);
      }
    }

    method Conjunction() returns (r: Option<Filter>)
      modifies this`pos
      ensures Agrees(r, ParseAnd(tokens, old(pos)))
      decreases Remaining(tokens, pos), 4
    {
      ghost var p := ParseNot(tokens, pos);
      r := Negation();
      if r.None? {
        return;
      }
      ghost var e := p.expr;
      while EqualFold(Peek(tokens, pos), "and")
        invariant r.Some? && Decides(r.value, e) && pos > old(pos)
        invariant ParseAnd(tokens, old(pos)) == AndTail(tokens, e, pos)
        decreases Remaining(tokens, pos)
      {
        EmptyIsNoKeyword();
        var _ := Next();
        p := ParseNot(tokens, pos);
        var right := Negation();
        if right.None? {
          return None;
        }
        r := Some(Both(r.value, right.value));
        e := And(e, p.expr);
      }
    }

    method Negation() returns (r: Option<Filter>)
      modifies this`pos
      ensures Agrees(r, ParseNot(tokens, old(pos)))
      decreases Remaining(tokens, pos), 3
    {
      EmptyIsNoKeyword();
      if EqualFold(Peek(tokens, pos), "not") {
        var _ := Next();
        r := Negation();
        if r.Some? {
          r := Some(Complement(r.value));
        }
      } else {
        r := Primary();
      }
    }

    method Primary() returns (r: Option<Filter>)
      modifies this`pos
      ensures Agrees(r, ParsePrimary(tokens, old(pos)))
      decreases Remaining(tokens, pos), 2
    {
      if Peek(tokens, pos) == "(" {
        var _ := Next();
        r := Disjunction();
        if r.None? {
          return;
        }
        var close := Next();
        if close != ")" {
          return None;
        }
      } else {
        r := Predicate();
      }
    }

    method Predicate() returns (r: Option<Filter>)
      modifies this`pos
      ensures Agrees(r, ParsePredicate(tokens, old(pos)))
    {
      var left := Next();
      var op := Next();
      var right := Next();
      if left == "" || op == "" {
        return None;
      }
      var o := ToLower(op);
      if o == "==" {
        var val := Unquote(right);
        r := Some((v: View) => ScalarEq(v, left, val));
      } else if o == "!=" {
        var val := Unquote(right);
        r := Some((v: View) => !ScalarEq(v, left, val));
      } else if o == "contains" {
        var val := Unquote(right);
        r := Some((v: View) => ListHas(v, left, val));
      } else if o == "in" {
        var val := Unquote(left);
        r := Some((v: View) => ListHas(v, right, val));
      } else {
        r := None;
      }
    }
  }

  lemma EmptyIsNoKeyword()
    ensures !EqualFold("", "or") && !EqualFold("", "and") && !EqualFold("", "not")
  {
    assert |ToLower("or")| == 2 && |ToLower("and")| == 3 && |ToLower("not")| == 3;
  }

  method Parse(s: string) returns (r: Option<Filter>)
    ensures r.Some? <==> ParseFilter(s).Some?
    ensures r.Some? ==> forall v :: r.value(v) <==> v in Denotes(ParseFilter(s).value)
  {
    var tokens := Tokenize(s);
    var p := new Parser(tokens);
    r := p.Disjunction();
    if r.Some? && p.pos != |tokens| {
      r := None;
    }
    if r.Some? {
      forall v
        ensures r.value(v) <==> v in Denotes(ParseFilter(s).value)
      {
        EvalDenotes(ParseFilter(s).value, v);
      }
    }
  }

  // ---- printing, with minimal parentheses and single spaces ----

  function Prec(e: Expr): nat {
    if e.Or? then 0 else if e.And? then 1 else 2
  }

  function Quoted(v: string): string {
    "\"" + v + "\""
  }

  function Print(e: Expr, level: nat): string
    decreases e, level
  {
    if Prec(e) < level then "(" + Print(e, 0) + ")"
    else
      match e
      case Or(l, r) => Print(l, 0) + " or " + Print(r, 1)
      case And(l, r) => Print(l, 1) + " and " + Print(r, 2)
      case Not(x) => "not " + Print(x, 2)
      case Eq(s, v) => s + " == " + Quoted(v)
      case Neq(s, v) => s + " != " + Quoted(v)
      case Contains(s, v) => s + " contains " + Quoted(v)
      case In(v, s) => Quoted(v) + " in " + s
  }

  /** The same, as tokens. */
  function Toks(e: Expr, level: nat): seq<string>
    decreases e, level
  {
    if Prec(e) < level then ["("] + Toks(e, 0) + [")"]
    else
      match e
      case Or(l, r) => Toks(l, 0) + ["or"] + Toks(r, 1)
      case And(l, r) => Toks(l, 1) + ["and"] + Toks(r, 2)
      case Not(x) => ["not"] + Toks(x, 2)
      case Eq(s, v) => [s, "==", Quoted(v)]
      case Neq(s, v) => [s, "!=", Quoted(v)]
      case Contains(s, v) => [s, "contains", Quoted(v)]
      case In(v, s) => [Quoted(v), "in", s]
  }

  /** A selector the tokenizer reads as one word. */
  predicate Word(w: string) {
    w != [] && w[0] != '=' && w[0] != '!' && forall i | 0 <= i < |w| :: !Delimiter(w[i])
  }

  /** Selectors are words, and not `not` where a negation could start; values hold no quote. */
  predicate Printable(e: Expr) {
    match e
    case Or(l, r) => Printable(l) && Printable(r)
    case And(l, r) => Printable(l) && Printable(r)
    case Not(x) => Printable(x)
    case In(v, s) => Word(s) && '\"' !in v
    case _ => Word(e.selector) && !EqualFold(e.selector, "not") && '\"' !in e.value
  }

  // ---- tokenizing printed text gives back its tokens ----

  /** A word in front of `rest` ends where `rest` begins. */
  predicate Breaks(rest: string) {
    rest == [] || Delimiter(rest[0])
  }

  lemma {:induction false} DelimiterAt(s: string, j: nat, n: nat)
    requires j <= n <= |s| && (forall i | j <= i < n :: !Delimiter(s[i])) && (n == |s| || Delimiter(s[n]))
    ensures DelimiterFrom(s, j) == n
    decreases n - j
  {
    if j < n {
      DelimiterAt(s, j + 1, n);
    }
  }

  lemma {:induction false} QuoteAt(s: string, j: nat, n: nat)
    requires j <= n < |s| && (forall i | j <= i < n :: s[i] != '\"') && s[n] == '\"'
    ensures QuoteFrom(s, j) == n
    decreases n - j
  {
    if j < n {
      QuoteAt(s, j + 1, n);
    }
  }

  lemma WordToken(w: string, rest: string)
    requires Word(w) && Breaks(rest)
    ensures Tokens(w + rest) == [w] + Tokens(rest)
  {
    var s := w + rest;
    assert forall i | 0 <= i < |w| :: s[i] == w[i];
    assert !Delimiter(w[0]);
    DelimiterAt(s, 1, |w|);
    assert TokenLength(s) == |w|;
    assert s[..|w|] == w && s[|w|..] == rest;
  }

  lemma QuotedToken(v: string, rest: string)
    requires '\"' !in v
    ensures Tokens(Quoted(v) + rest) == [Quoted(v)] + Tokens(rest)
  {
    var s, n := Quoted(v) + rest, |v| + 1;
    assert s[0] == '\"' && s[n] == '\"';
    assert forall i | 1 <= i < n :: s[i] == v[i - 1] && v[i - 1] in v;
    QuoteAt(s, 1, n);
    assert TokenLength(s) == n + 1;
    assert s[..n + 1] == Quoted(v) && s[n + 1..] == rest;
  }

  lemma BlankSkipped(rest: string)
    ensures Tokens(" " + rest) == Tokens(rest)
  {
    assert (" " + rest)[1..] == rest;
  }

  lemma ParenToken(c: char, rest: string)
    requires c == '(' || c == ')'
    ensures Tokens([c] + rest) == [[c]] + Tokens(rest)
  {
    var s := [c] + rest;
    assert s[..1] == [c] && s[1..] == rest;
  }

  predicate Operator(op: string) {
    op == "==" || op == "!=" || Word(op)
  }

  lemma Assoc(a: string, b: string, c: string)
    ensures a + b + c == a + (b + c)
  {
  }

  function Spaced(op: string): string {
    " " + op + " "
  }

  /** An operator or connective between single spaces is one token. */
  lemma SpacedToken(op: string, rest: string)
    requires Operator(op)
    ensures Tokens(Spaced(op) + rest) == [op] + Tokens(rest)
    ensures Breaks(Spaced(op) + rest)
  {
    var s := op + (" " + rest);
    assert Spaced(op) + rest == " " + s;
    BlankSkipped(s);
    if Word(op) {
      WordToken(op, " " + rest);
    } else {
      assert s[..2] == op && s[2..] == " " + rest;
      assert TokenLength(s) == 2;
    }
    BlankSkipped(rest);
  }

  lemma KeywordsAreWords()
    ensures Word("or") && Word("and") && Word("not") && Word("contains") && Word("in")
  {
  }

  /** The three atoms that start with their selector. */
  lemma SelectorAtom(s: string, op: string, v: string, rest: string)
    requires Word(s) && Operator(op) && '\"' !in v
    ensures Tokens(s + Spaced(op) + Quoted(v) + rest) == [s, op, Quoted(v)] + Tokens(rest)
  {
    var tail := Quoted(v) + rest;
    Assoc(s + Spaced(op), Quoted(v), rest);
    Assoc(s, Spaced(op), tail);
    SpacedToken(op, tail);
    WordToken(s, Spaced(op) + tail);
    QuotedToken(v, rest);
  }

  lemma InAtom(v: string, s: string, rest: string)
    requires Word(s) && '\"' !in v && Breaks(rest)
    ensures Tokens(Quoted(v) + Spaced("in") + s + rest) == [Quoted(v), "in", s] + Tokens(rest)
  {
    KeywordsAreWords();
    Assoc(Quoted(v) + Spaced("in"), s, rest);
    Assoc(Quoted(v), Spaced("in"), s + rest);
    QuotedToken(v, Spaced("in") + (s + rest));
    SpacedToken("in", s + rest);
    WordToken(s, rest);
  }

  lemma SpacedOperators()
    ensures Spaced("==") == " == " && Spaced("!=") == " != " && Spaced("contains") == " contains "
    ensures Spaced("in") == " in "
    ensures Spaced("or") == " or " && Spaced("and") == " and "
  {
  }

  lemma AtomTokens(e: Expr, rest: string)
    requires Printable(e) && !e.Or? && !e.And? && !e.Not? && Breaks(rest)
    ensures Tokens(Print(e, 2) + rest) == Toks(e, 2) + Tokens(rest)
  {
    KeywordsAreWords();
    SpacedOperators();
    match e
    case Eq(s, v) => SelectorAtom(s, "==", v, rest);
    case Neq(s, v) => SelectorAtom(s, "!=", v, rest);
    case Contains(s, v) => SelectorAtom(s, "contains", v, rest);
    case In(v, s) => InAtom(v, s, rest);
  }

  /** Two texts around a connective, given how each of them tokenizes. */
  lemma BinaryTokens(l: string, lt: seq<string>, op: string, r: string, rt: seq<string>, rest: string)
    requires Word(op)
    requires Tokens(l + (Spaced(op) + (r + rest))) == lt + Tokens(Spaced(op) + (r + rest))
    requires Tokens(r + rest) == rt + Tokens(rest)
    ensures Tokens(l + Spaced(op) + r + rest) == lt + [op] + rt + Tokens(rest)
  {
    Assoc(l + Spaced(op), r, rest);
    Assoc(l, Spaced(op), r + rest);
    SpacedToken(op, r + rest);
    AssocTokens(lt, [op], rt, Tokens(rest));
  }

  lemma AssocTokens(a: seq<string>, b: seq<string>, c: seq<string>, d: seq<string>)
    ensures a + (b + (c + d)) == a + b + c + d
  {
  }

  lemma {:induction false} PrintTokens(e: Expr, level: nat, rest: string)
    requires Printable(e) && Breaks(rest)
    ensures Tokens(Print(e, level) + rest) == Toks(e, level) + Tokens(rest)
    decreases e, level
  {
    KeywordsAreWords();
    SpacedOperators();
    if Prec(e) < level {
      PrintTokens(e, 0, ")" + rest);
      ParenTokens(Print(e, 0), Toks(e, 0), rest);
    } else if e.Or? {
      SpacedToken("or", Print(e.right, 1) + rest);
      PrintTokens(e.left, 0, Spaced("or") + (Print(e.right, 1) + rest));
      PrintTokens(e.right, 1, rest);
      BinaryTokens(Print(e.left, 0), Toks(e.left, 0), "or", Print(e.right, 1), Toks(e.right, 1), rest);
    } else if e.And? {
      SpacedToken("and", Print(e.right, 2) + rest);
      PrintTokens(e.left, 1, Spaced("and") + (Print(e.right, 2) + rest));
      PrintTokens(e.right, 2, rest);
      BinaryTokens(Print(e.left, 1), Toks(e.left, 1), "and", Print(e.right, 2), Toks(e.right, 2), rest);
    } else if e.Not? {
      PrintTokens(e.inner, 2, rest);
      NotTokens(Print(e.inner, 2), Toks(e.inner, 2), rest);
    } else {
      AtomTokens(e, rest);
      assert Print(e, level) == Print(e, 2) && Toks(e, level) == Toks(e, 2);
    }
  }

  lemma ParenTokens(p: string, pt: seq<string>, rest: string)
    requires Tokens(p + (")" + rest)) == pt + Tokens(")" + rest)
    ensures Tokens("(" + p + ")" + rest) == ["("] + pt + [")"] + Tokens(rest)
  {
    Assoc("(" + p, ")", rest);
    Assoc("(", p, ")" + rest);
    ParenToken('(', p + (")" + rest));
    ParenToken(')', rest);
    AssocTokens(["("], pt, [")"], Tokens(rest));
  }

  lemma NotTokens(p: string, pt: seq<string>, rest: string)
    requires Tokens(p + rest) == pt + Tokens(rest)
    ensures Tokens("not " + p + rest) == ["not"] + pt + Tokens(rest)
  {
    KeywordsAreWords();
    assert "not " + p + rest == "not" + (" " + (p + rest)) by {
      assert "not " == "not" + " ";
      Assoc("not" + " ", p, rest);
      Assoc("not", " ", p + rest);
    }
    WordToken("not", " " + (p + rest));
    BlankSkipped(p + rest);
  }

  // ---- parsing the tokens gives back the expression ----

  /** `ts` continues with `mid` at `pos`. */
  predicate At(ts: seq<string>, pos: nat, mid: seq<string>) {
    pos + |mid| <= |ts| && ts[pos..pos + |mid|] == mid
  }

  lemma AtSplit(ts: seq<string>, pos: nat, a: seq<string>, b: seq<string>)
    requires At(ts, pos, a + b)
    ensures At(ts, pos, a) && At(ts, pos + |a|, b)
  {
    var s := ts[pos..pos + |a + b|];
    assert s[..|a|] == ts[pos..pos + |a|] && s[|a|..] == ts[pos + |a|..pos + |a| + |b|];
    assert (a + b)[..|a|] == a && (a + b)[|a|..] == b;
  }

  lemma AtInfix(ts: seq<string>, pos: nat, l: seq<string>, op: string, r: seq<string>)
    requires At(ts, pos, l + [op] + r)
    ensures At(ts, pos, l) && pos + |l| < |ts| && ts[pos + |l|] == op && At(ts, pos + |l| + 1, r)
  {
    AtSplit(ts, pos, l + [op], r);
    AtSplit(ts, pos, l, [op]);
    AtOne(ts, pos + |l|, op);
  }

  lemma AtOne(ts: seq<string>, pos: nat, t: string)
    requires At(ts, pos, [t])
    ensures pos < |ts| && ts[pos] == t
  {
    assert ts[pos..pos + 1][0] == ts[pos];
  }

  lemma AtPrefix(ts: seq<string>, pos: nat, t: string, r: seq<string>)
    requires At(ts, pos, [t] + r)
    ensures pos < |ts| && ts[pos] == t && At(ts, pos + 1, r)
  {
    AtSplit(ts, pos, [t], r);
    AtOne(ts, pos, t);
  }

  lemma AtParens(ts: seq<string>, pos: nat, inner: seq<string>)
    requires At(ts, pos, ["("] + inner + [")"])
    ensures pos < |ts| && ts[pos] == "(" && At(ts, pos + 1, inner)
    ensures pos + 1 + |inner| < |ts| && ts[pos + 1 + |inner|] == ")"
  {
    AtSplit(ts, pos, ["("] + inner, [")"]);
    AtPrefix(ts, pos, "(", inner);
    AtOne(ts, pos + 1 + |inner|, ")");
  }

  lemma Folds()
    ensures ToLower("==") == "==" && ToLower("!=") == "!=" && ToLower("contains") == "contains" && ToLower("in") == "in"
    ensures EqualFold("or", "or") && EqualFold("and", "and") && EqualFold("not", "not")
    ensures !EqualFold("or", "and") && !EqualFold(")", "and") && !EqualFold(")", "or") && !EqualFold("(", "not")
  {
    assert ToLower("or")[0] == 'o' && ToLower("and")[0] == 'a' && ToLower("not")[0] == 'n';
    assert ToLower(")")[0] == ')' && ToLower("(")[0] == '(';
  }

  lemma QuotedIsNoKeyword(v: string)
    ensures !EqualFold(Quoted(v), "not") && Quoted(v) != "(" && Quoted(v) != ""
  {
    assert ToLower(Quoted(v))[0] == '\"' && ToLower("not")[0] == 'n';
    assert Quoted(v)[0] == '\"';
  }

  // ---- the grammar ----

  /** `v` is what the token says without its quotes. */
  predicate Strips(token: string, v: string) {
    token == "\"" + v + "\"" || (token == v && !(|v| >= 2 && v[0] == '\"' && v[|v| - 1] == '\"'))
  }

  /** Three tokens make a predicate; `contains` and `in` in any letter case. */
  predicate AtomAt(ts: seq<string>, pos: nat, e: Expr, end: nat)
    requires pos <= end <= |ts|
  {
    && end == pos + 3 && ts[pos] != "" && ts[pos + 1] != ""
    && match e
       case Eq(s, v) => ts[pos + 1] == "==" && s == ts[pos] && Strips(ts[pos + 2], v)
       case Neq(s, v) => ts[pos + 1] == "!=" && s == ts[pos] && Strips(ts[pos + 2], v)
       case Contains(s, v) => EqualFold(ts[pos + 1], "contains") && s == ts[pos] && Strips(ts[pos + 2], v)
       case In(v, s) => EqualFold(ts[pos + 1], "in") && Strips(ts[pos], v) && s == ts[pos + 2]
       case _ => false
  }

  /** The tokens from `pos` up to `end` form the disjunction `e`: conjunctions joined by `or`,
      grouped to the left. */
  ghost predicate OrSpan(ts: seq<string>, pos: nat, e: Expr, end: nat)
    requires pos <= end <= |ts|
    decreases end - pos, 2
  {
    || AndSpan(ts, pos, e, end)
    || (e.Or? && exists mid: nat | pos <= mid < end && EqualFold(ts[mid], "or") ::
          OrSpan(ts, pos, e.left, mid) && AndSpan(ts, mid + 1, e.right, end))
  }

  /** They form a conjunction: negations joined by `and`, grouped to the left. */
  ghost predicate AndSpan(ts: seq<string>, pos: nat, e: Expr, end: nat)
    requires pos <= end <= |ts|
    decreases end - pos, 1
  {
    || NotSpan(ts, pos, e, end)
    || (e.And? && exists mid: nat | pos <= mid < end && EqualFold(ts[mid], "and") ::
          AndSpan(ts, pos, e.left, mid) && NotSpan(ts, mid + 1, e.right, end))
  }

  /** They form a negation, an expression in parentheses, or a predicate. */
  ghost predicate NotSpan(ts: seq<string>, pos: nat, e: Expr, end: nat)
    requires pos <= end <= |ts|
    decreases end - pos, 0
  {
    && pos < end
    && if EqualFold(ts[pos], "not") then e.Not? && NotSpan(ts, pos + 1, e.inner, end)
       else if ts[pos] == "(" then pos + 2 <= end && ts[end - 1] == ")" && OrSpan(ts, pos + 1, e, end - 1)
       else AtomAt(ts, pos, e, end)
  }

  // ---- the parser follows the grammar ----

  lemma OperatorFolds(op: string)
    ensures ToLower(op) == "==" <==> op == "=="
    ensures ToLower(op) == "!=" <==> op == "!="
    ensures ToLower(op) == "contains" <==> EqualFold(op, "contains")
    ensures ToLower(op) == "in" <==> EqualFold(op, "in")
  {
    assert ToLower("contains") == "contains" && ToLower("in") == "in";
    if ToLower(op) == "==" || ToLower(op) == "!=" {
      assert |op| == 2 && Lower(op[0]) == ToLower(op)[0] && Lower(op[1]) == ToLower(op)[1];
      assert op == [op[0], op[1]];
    } else {
      assert ToLower("==") == "==" && ToLower("!=") == "!=";
    }
  }

  lemma StripsUnquoted(token: string, v: string)
    ensures Strips(token, v) <==> v == Unquote(token)
  {
    if |token| >= 2 && token[0] == '\"' && token[|token| - 1] == '\"' {
      assert token == "\"" + token[1..|token| - 1] + "\"";
    }
    if token == "\"" + v + "\"" {
      assert token[1..|token| - 1] == v;
    }
  }

  lemma PredicateIsAtom(ts: seq<string>, pos: nat, e: Expr, end: nat)
    requires pos <= end <= |ts|
    ensures ParsePredicate(ts, pos) == Done(e, end) <==> AtomAt(ts, pos, e, end)
  {
    if pos + 3 <= |ts| {
      OperatorFolds(ts[pos + 1]);
      match e
      case Eq(_, v) => StripsUnquoted(ts[pos + 2], v);
      case Neq(_, v) => StripsUnquoted(ts[pos + 2], v);
      case Contains(_, v) => StripsUnquoted(ts[pos + 2], v);
      case In(v, _) => StripsUnquoted(ts[pos], v);
      case _ =>
      OperatorsApart(ts[pos + 1]);
    }
  }

  lemma OperatorsApart(op: string)
    ensures !(EqualFold(op, "contains") && EqualFold(op, "in"))
    ensures op == "==" || op == "!=" ==> !EqualFold(op, "contains") && !EqualFold(op, "in")
  {
    assert |ToLower("contains")| == 8 && |ToLower("in")| == 2;
    assert ToLower("in")[0] == 'i' && ToLower("==")[0] == '=' && ToLower("!=")[0] == '!';
  }

  lemma KeywordsApart(ts: seq<string>, pos: nat)
    requires pos < |ts|
    ensures Keyword(ts, pos, "or") ==> !Keyword(ts, pos, "and")
    ensures ts[pos] == ")" ==> !Keyword(ts, pos, "or") && !Keyword(ts, pos, "and")
    ensures ts[pos] == "(" ==> !Keyword(ts, pos, "not")
  {
    Folds();
  }

  // single parsing steps

  lemma AndStart(ts: seq<string>, pos: nat, e: Expr, end: nat)
    requires ParseNot(ts, pos) == Done(e, end)
    ensures ParseAnd(ts, pos) == AndTail(ts, e, end)
  {
  }

  lemma AndStep(ts: seq<string>, pos: nat, l: Expr, mid: nat, r: Expr, end: nat)
    requires ParseAnd(ts, pos) == AndTail(ts, l, mid)
    requires Keyword(ts, mid, "and") && ParseNot(ts, mid + 1) == Done(r, end)
    ensures ParseAnd(ts, pos) == AndTail(ts, And(l, r), end)
  {
  }

  lemma OrStart(ts: seq<string>, pos: nat, e: Expr, end: nat)
    requires ParseAnd(ts, pos) == AndTail(ts, e, end) && !Keyword(ts, end, "and")
    ensures ParseOr(ts, pos) == OrTail(ts, e, end)
  {
  }

  lemma OrStep(ts: seq<string>, pos: nat, l: Expr, mid: nat, r: Expr, end: nat)
    requires ParseOr(ts, pos) == OrTail(ts, l, mid)
    requires Keyword(ts, mid, "or") && ParseAnd(ts, mid + 1) == AndTail(ts, r, end) && !Keyword(ts, end, "and")
    ensures ParseOr(ts, pos) == OrTail(ts, Or(l, r), end)
  {
  }

  lemma NotStep(ts: seq<string>, pos: nat, e: Expr, end: nat)
    requires Keyword(ts, pos, "not") && ParseNot(ts, pos + 1) == Done(e, end)
    ensures ParseNot(ts, pos) == Done(Not(e), end)
  {
  }

  lemma ParenStep(ts: seq<string>, pos: nat, e: Expr, end: nat)
    requires pos < |ts| && ts[pos] == "(" && end < |ts| && ts[end] == ")"
    requires ParseOr(ts, pos + 1) == OrTail(ts, e, end)
    ensures ParseNot(ts, pos) == Done(e, end + 1)
  {
    KeywordsApart(ts, pos);
    KeywordsApart(ts, end);
  }

  /** Every span of the grammar is parsed as it says. */
  lemma {:induction false} ParseTight(ts: seq<string>, pos: nat, e: Expr, end: nat)
    requires pos <= end <= |ts| && NotSpan(ts, pos, e, end)
    ensures ParseNot(ts, pos) == Done(e, end)
    decreases end - pos, 0
  {
    if EqualFold(ts[pos], "not") {
      ParseTight(ts, pos + 1, e.inner, end);
      NotStep(ts, pos, e.inner, end);
    } else if ts[pos] == "(" {
      KeywordsApart(ts, end - 1);
      ParseLoose(ts, pos + 1, e, end - 1);
      ParenStep(ts, pos, e, end - 1);
    } else {
      PredicateIsAtom(ts, pos, e, end);
    }
  }

  lemma {:induction false} ParseMiddle(ts: seq<string>, pos: nat, e: Expr, end: nat)
    requires pos <= end <= |ts| && AndSpan(ts, pos, e, end)
    ensures ParseAnd(ts, pos) == AndTail(ts, e, end)
    decreases end - pos, 1
  {
    if NotSpan(ts, pos, e, end) {
      ParseTight(ts, pos, e, end);
      AndStart(ts, pos, e, end);
    } else {
      var mid: nat :| pos <= mid < end && EqualFold(ts[mid], "and")
                      && AndSpan(ts, pos, e.left, mid) && NotSpan(ts, mid + 1, e.right, end);
      ParseMiddle(ts, pos, e.left, mid);
      ParseTight(ts, mid + 1, e.right, end);
      AndStep(ts, pos, e.left, mid, e.right, end);
    }
  }

  lemma {:induction false} ParseLoose(ts: seq<string>, pos: nat, e: Expr, end: nat)
    requires pos <= end <= |ts| && OrSpan(ts, pos, e, end) && !Keyword(ts, end, "and")
    ensures ParseOr(ts, pos) == OrTail(ts, e, end)
    decreases end - pos, 2
  {
    if AndSpan(ts, pos, e, end) {
      ParseMiddle(ts, pos, e, end);
      OrStart(ts, pos, e, end);
    } else {
      var mid: nat :| pos <= mid < end && EqualFold(ts[mid], "or")
                      && OrSpan(ts, pos, e.left, mid) && AndSpan(ts, mid + 1, e.right, end);
      KeywordsApart(ts, mid);
      ParseLoose(ts, pos, e.left, mid);
      ParseMiddle(ts, mid + 1, e.right, end);
      OrStep(ts, pos, e.left, mid, e.right, end);
    }
  }

  /** Whatever is parsed is a span of the grammar. */
  lemma {:induction false} TightSpan(ts: seq<string>, pos: nat, e: Expr, end: nat)
    requires ParseNot(ts, pos) == Done(e, end) && end <= |ts|
    ensures pos <= end && NotSpan(ts, pos, e, end)
    decreases Remaining(ts, pos), 3
  {
    if Keyword(ts, pos, "not") {
      TightSpan(ts, pos + 1, e.inner, end);
    } else if Peek(ts, pos) == "(" {
      LooseSpan(ts, pos + 1, e, end - 1);
    } else {
      PredicateIsAtom(ts, pos, e, end);
    }
  }

  lemma {:induction false} MiddleSpan(ts: seq<string>, pos: nat, e: Expr, end: nat)
    requires ParseAnd(ts, pos) == Done(e, end) && end <= |ts|
    ensures pos <= end && AndSpan(ts, pos, e, end)
    decreases Remaining(ts, pos), 4
  {
    var left := ParseNot(ts, pos);
    TightSpan(ts, pos, left.expr, left.pos);
    AndTailSpan(ts, pos, left.expr, left.pos, e, end);
  }

  lemma {:induction false} AndTailSpan(ts: seq<string>, pos: nat, left: Expr, mid: nat, e: Expr, end: nat)
    requires pos < mid <= |ts| && AndSpan(ts, pos, left, mid) && AndTail(ts, left, mid) == Done(e, end) && end <= |ts|
    ensures pos <= end && AndSpan(ts, pos, e, end)
    decreases Remaining(ts, mid), 0
  {
    if Keyword(ts, mid, "and") {
      var right := ParseNot(ts, mid + 1);
      TightSpan(ts, mid + 1, right.expr, right.pos);
      AndTailSpan(ts, pos, And(left, right.expr), right.pos, e, end);
    }
  }

  lemma {:induction false} LooseSpan(ts: seq<string>, pos: nat, e: Expr, end: nat)
    requires ParseOr(ts, pos) == Done(e, end) && end <= |ts|
    ensures pos <= end && OrSpan(ts, pos, e, end)
    decreases Remaining(ts, pos), 5
  {
    var left := ParseAnd(ts, pos);
    MiddleSpan(ts, pos, left.expr, left.pos);
    OrTailSpan(ts, pos, left.expr, left.pos, e, end);
  }

  lemma {:induction false} OrTailSpan(ts: seq<string>, pos: nat, left: Expr, mid: nat, e: Expr, end: nat)
    requires pos < mid <= |ts| && OrSpan(ts, pos, left, mid) && OrTail(ts, left, mid) == Done(e, end) && end <= |ts|
    ensures pos <= end && OrSpan(ts, pos, e, end)
    decreases Remaining(ts, mid), 0
  {
    if Keyword(ts, mid, "or") {
      var right := ParseAnd(ts, mid + 1);
      MiddleSpan(ts, mid + 1, right.expr, right.pos);
      OrTailSpan(ts, pos, Or(left, right.expr), right.pos, e, end);
    }
  }

  // ---- printed tokens are spans ----

  lemma AtomPrinted(ts: seq<string>, pos: nat, e: Expr)
    requires Printable(e) && !e.Or? && !e.And? && !e.Not? && At(ts, pos, Toks(e, 2))
    ensures pos + 3 <= |ts| && NotSpan(ts, pos, e, pos + 3)
  {
    var a := Toks(e, 2);
    assert ts[pos] == ts[pos..pos + 3][0] == a[0];
    assert ts[pos + 1] == ts[pos..pos + 3][1] == a[1];
    assert ts[pos + 2] == ts[pos..pos + 3][2] == a[2];
    if e.In? {
      QuotedIsNoKeyword(e.value);
    } else {
      assert !Delimiter(e.selector[0]);
    }
  }

  /** The span of printed tokens at each level. */
  ghost predicate Spans(ts: seq<string>, pos: nat, e: Expr, level: nat, end: nat) {
    && pos <= end <= |ts|
    && if level == 0 then OrSpan(ts, pos, e, end)
       else if level == 1 then AndSpan(ts, pos, e, end)
       else NotSpan(ts, pos, e, end)
  }

  lemma BracketSpans(ts: seq<string>, pos: nat, e: Expr, level: nat, end: nat)
    requires pos < end < |ts| && ts[pos] == "(" && ts[end] == ")" && Spans(ts, pos + 1, e, 0, end)
    ensures Spans(ts, pos, e, level, end + 1)
  {
    KeywordsApart(ts, pos);
  }

  lemma OrSpans(ts: seq<string>, pos: nat, e: Expr, mid: nat, end: nat)
    requires e.Or? && mid < |ts| && ts[mid] == "or"
    requires Spans(ts, pos, e.left, 0, mid) && Spans(ts, mid + 1, e.right, 1, end)
    ensures Spans(ts, pos, e, 0, end)
  {
  }

  lemma AndSpans(ts: seq<string>, pos: nat, e: Expr, level: nat, mid: nat, end: nat)
    requires e.And? && level <= 1 && mid < |ts| && ts[mid] == "and"
    requires Spans(ts, pos, e.left, 1, mid) && Spans(ts, mid + 1, e.right, 2, end)
    ensures Spans(ts, pos, e, level, end)
  {
  }

  lemma NotSpans(ts: seq<string>, pos: nat, e: Expr, level: nat, end: nat)
    requires e.Not? && pos < |ts| && ts[pos] == "not" && Spans(ts, pos + 1, e.inner, 2, end)
    ensures Spans(ts, pos, e, level, end)
  {
  }

  lemma AtomSpans(ts: seq<string>, pos: nat, e: Expr, level: nat)
    requires Printable(e) && !e.Or? && !e.And? && !e.Not? && level <= 2 && At(ts, pos, Toks(e, level))
    ensures Spans(ts, pos, e, level, pos + |Toks(e, level)|)
  {
    assert Toks(e, level) == Toks(e, 2);
    AtomPrinted(ts, pos, e);
  }

  lemma {:induction false} TokensSpan(ts: seq<string>, pos: nat, e: Expr, level: nat)
    requires Printable(e) && At(ts, pos, Toks(e, level)) && level <= 2
    ensures Spans(ts, pos, e, level, pos + |Toks(e, level)|)
    decreases e, level
  {
    if Prec(e) < level {
      var inner := Toks(e, 0);
      AtParens(ts, pos, inner);
      TokensSpan(ts, pos + 1, e, 0);
      BracketSpans(ts, pos, e, level, pos + 1 + |inner|);
    } else if e.Or? {
      OrTokensSpan(ts, pos, e);
    } else if e.And? {
      AndTokensSpan(ts, pos, e, level);
    } else if e.Not? {
      var inner := Toks(e.inner, 2);
      AtPrefix(ts, pos, "not", inner);
      TokensSpan(ts, pos + 1, e.inner, 2);
      NotSpans(ts, pos, e, level, pos + 1 + |inner|);
    } else {
      AtomSpans(ts, pos, e, level);
    }
  }

  lemma {:induction false} OrTokensSpan(ts: seq<string>, pos: nat, e: Expr)
    requires Printable(e) && e.Or? && At(ts, pos, Toks(e, 0))
    ensures Spans(ts, pos, e, 0, pos + |Toks(e, 0)|)
    decreases e, 0, 0
  {
    var mid, end := AtOr(ts, pos, e);
    TokensSpan(ts, pos, e.left, 0);
    TokensSpan(ts, mid + 1, e.right, 1);
    OrSpans(ts, pos, e, mid, end);
  }

  lemma AtOr(ts: seq<string>, pos: nat, e: Expr) returns (mid: nat, end: nat)
    requires e.Or? && At(ts, pos, Toks(e, 0))
    ensures At(ts, pos, Toks(e.left, 0)) && mid == pos + |Toks(e.left, 0)|
    ensures mid < |ts| && ts[mid] == "or"
    ensures At(ts, mid + 1, Toks(e.right, 1)) && end == mid + 1 + |Toks(e.right, 1)| == pos + |Toks(e, 0)|
  {
    var l, r := Toks(e.left, 0), Toks(e.right, 1);
    AtInfix(ts, pos, l, "or", r);
    mid, end := pos + |l|, pos + |l| + 1 + |r|;
  }

  lemma {:induction false} AndTokensSpan(ts: seq<string>, pos: nat, e: Expr, level: nat)
    requires Printable(e) && e.And? && level <= 1 && At(ts, pos, Toks(e, level))
    ensures Spans(ts, pos, e, level, pos + |Toks(e, level)|)
    decreases e, level, 0
  {
    var mid, end := AtAnd(ts, pos, e, level);
    TokensSpan(ts, pos, e.left, 1);
    TokensSpan(ts, mid + 1, e.right, 2);
    AndSpans(ts, pos, e, level, mid, end);
  }

  lemma AtAnd(ts: seq<string>, pos: nat, e: Expr, level: nat) returns (mid: nat, end: nat)
    requires e.And? && level <= 1 && At(ts, pos, Toks(e, level))
    ensures At(ts, pos, Toks(e.left, 1)) && mid == pos + |Toks(e.left, 1)|
    ensures mid < |ts| && ts[mid] == "and"
    ensures At(ts, mid + 1, Toks(e.right, 2)) && end == mid + 1 + |Toks(e.right, 2)| == pos + |Toks(e, level)|
  {
    var l, r := Toks(e.left, 1), Toks(e.right, 2);
    AtInfix(ts, pos, l, "and", r);
    mid, end := pos + |l|, pos + |l| + 1 + |r|;
  }

  // ---- main results ----

  /** A filter text is accepted, as `e`, exactly when its tokens form `e` by the grammar: `not`
      binds tighter than `and`, `and` tighter than `or`, both group to the left, keywords are
      in any letter case, and parentheses may be anywhere. */
  lemma ParsesExactly(s: string, e: Expr)
    ensures ParseFilter(s) == Some(e) <==> OrSpan(Tokens(s), 0, e, |Tokens(s)|)
  {
    var ts := Tokens(s);
    if ParseFilter(s) == Some(e) {
      LooseSpan(ts, 0, e, |ts|);
    }
    if OrSpan(ts, 0, e, |ts|) {
      ParseLoose(ts, 0, e, |ts|);
    }
  }

  /** Filter round trip: printing any printable expression with minimal parentheses, tokenizing
      and parsing it gives the same expression back, with its verdict on every entry. */
  lemma FilterRoundTrip(e: Expr)
    requires Printable(e)
    ensures ParseFilter(Print(e, 0)) == Some(e)
    ensures forall v :: Eval(ParseFilter(Print(e, 0)).value, v) <==> v in Denotes(e)
  {
    ParsePrinted(e);
    forall v
      ensures Eval(e, v) <==> v in Denotes(e)
    {
      EvalDenotes(e, v);
    }
  }

  lemma ParsePrinted(e: Expr)
    requires Printable(e)
    ensures ParseFilter(Print(e, 0)) == Some(e)
  {
    PrintTokens(e, 0, "");
    assert Print(e, 0) + "" == Print(e, 0);
    var ts := Toks(e, 0);
    assert ts + Tokens("") == ts;
    assert At(ts, 0, ts);
    TokensSpan(ts, 0, e, 0);
    ParsesExactly(Print(e, 0), e);
  }
}
