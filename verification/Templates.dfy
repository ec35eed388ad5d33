/**
 `renderTemplate` of mobile/src/store/campaignsStore.js: three chained global replaces, against one
 left-to-right substitution of all three variables at once.
 */
module Templates {

  datatype Variable = Name | Phone | Status

  function Token(v: Variable): string {
    match v
    case Name => "{name}"
    case Phone => "{phone}"
    case Status => "{status}"
  }

  /** A client row; an absent field is the empty string, which the program treats alike. */
  datatype Client = Client(name: string, phone: string, status: string)

  function Value(c: Client, v: Variable): string {
    match v
    case Name => c.name
    case Phone => if c.phone == "" then "" else "+" + c.phone
    case Status => c.status
  }

  // ---------------------------------------------------------------- String.prototype.replace

  /** JavaScript reads "$$", "$&", "$`" and "$'" in a replacement string; a variable's pattern has no groups. */
  function Expand(replacement: string, matched: string, before: string, after: string): string {
    if |replacement| == 0 then ""
    else if |replacement| >= 2 && replacement[0] == '$' && replacement[1] in "$&`'" then
      (match replacement[1]
       case '$' => "$"
       case '&' => matched
       case '`' => before
       case _ => after) + Expand(replacement[2..], matched, before, after)
    else [replacement[0]] + Expand(replacement[1..], matched, before, after)
  }

  /** The part of a global replace that starts at position i of s. */
  function ReplaceFrom(s: string, i: nat, token: string, replacement: string): string
    requires i <= |s| && token != ""
    decreases |s| - i
  {
    if i == |s| then ""
    else if token <= s[i..] then
      Expand(replacement, token, s[..i], s[i + |token|..]) + ReplaceFrom(s, i + |token|, token, replacement)
    else [s[i]] + ReplaceFrom(s, i + 1, token, replacement)
  }

  function ReplaceAll(s: string, token: string, replacement: string): string
    requires token != ""
  {
    ReplaceFrom(s, 0, token, replacement)
  }

  function RenderTemplate(body: string, c: Client): string {
    var one := ReplaceAll(body, Token(Name), Value(c, Name));
    var two := ReplaceAll(one, Token(Phone), Value(c, Phone));
    ReplaceAll(two, Token(Status), Value(c, Status))
  }

  /** The same replaces, chained in any order. */
  function Chained(body: string, c: Client, order: seq<Variable>): string
    decreases |order|
  {
    if |order| == 0 then body
    else Chained(ReplaceAll(body, Token(order[0]), Value(c, order[0])), c, order[1..])
  }

  // ---------------------------------------------------------------- one simultaneous substitution

  predicate StartsWith(s: string, v: Variable) { Token(v) <= s }

  lemma StartsOnce(s: string, v: Variable, w: Variable)
    requires StartsWith(s, v) && StartsWith(s, w)
    ensures v == w
  {
    assert Token(v)[1] == s[1] == Token(w)[1];
  }

  /** Scan s once, from the left, and substitute the variables in vs. */
  function Substitute(s: string, c: Client, vs: set<Variable>): string
    decreases |s|
  {
    if s == "" then ""
    else if Name in vs && StartsWith(s, Name) then Value(c, Name) + Substitute(s[6..], c, vs)
    else if Phone in vs && StartsWith(s, Phone) then Value(c, Phone) + Substitute(s[7..], c, vs)
    else if Status in vs && StartsWith(s, Status) then Value(c, Status) + Substitute(s[8..], c, vs)
    else [s[0]] + Substitute(s[1..], c, vs)
  }

  /** No '{' is followed by another '{' before a '}'. `open` says that a '{' is still waiting for its '}'. */
  predicate NoNestedBrace(s: string, open: bool) {
    s == "" ||
    if s[0] == '{' then !open && NoNestedBrace(s[1..], true)
    else NoNestedBrace(s[1..], open && s[0] != '}')
  }

  /** A value that is neither read as an instruction nor looks like the beginning of a variable. */
  predicate Tame(s: string) { '{' !in s && '$' !in s }

  /** None of the four instructions occurs: a '$' before any other character, or at the end, stands for itself. */
  predicate NoInstruction(s: string) {
    forall i :: 0 <= i < |s| - 1 && s[i] == '$' ==> s[i + 1] !in "$&`'"
  }

  /** The token occurs nowhere in s, and no suffix of s is a beginning of it. */
  predicate Inert(s: string, token: string) {
    forall i :: 0 <= i < |s| ==> !(token <= s[i..]) && !(s[i..] <= token)
  }

  /** What the value of x has to be like when the replaces in `later` follow its own. */
  predicate SafeBefore(value: string, later: seq<Variable>) {
    NoInstruction(value) && forall v :: v in later ==> Inert(value, Token(v))
  }

  /** Every value is safe with respect to the replaces that come after its own. */
  predicate SafeInOrder(c: Client, order: seq<Variable>) {
    forall i :: 0 <= i < |order| ==> SafeBefore(Value(c, order[i]), order[i + 1..])
  }

  // ---------------------------------------------------------------- replaces with plain values

  /** The same scan over a suffix alone, with the replacement taken literally. */
  function ReplacePlain(s: string, token: string, value: string): string
    requires token != ""
    decreases |s|
  {
    if s == "" then ""
    else if token <= s then value + ReplacePlain(s[|token|..], token, value)
    else [s[0]] + ReplacePlain(s[1..], token, value)
  }

  lemma {:induction false} ExpandPlain(value: string, matched: string, before: string, after: string)
    requires NoInstruction(value)
    ensures Expand(value, matched, before, after) == value
  {
    if value != "" {
      forall i | 0 <= i < |value| - 2 && value[1..][i] == '$' ensures value[1..][i + 1] !in "$&`'" {
        assert value[i + 1] == '$';
      }
      ExpandPlain(value[1..], matched, before, after);
    }
  }

  lemma {:induction false} ReplaceFromIsPlain(s: string, i: nat, token: string, value: string)
    requires i <= |s| && token != "" && NoInstruction(value)
    ensures ReplaceFrom(s, i, token, value) == ReplacePlain(s[i..], token, value)
    decreases |s| - i
  {
    if i < |s| {
      if token <= s[i..] {
        ReplaceFromIsPlain(s, i + |token|, token, value);
        ExpandPlain(value, token, s[..i], s[i + |token|..]);
        TokenTaken(s, i, token, value);
      } else {
        ReplaceFromIsPlain(s, i + 1, token, value);
        CharTaken(s, i, token, value);
      }
    }
  }

  lemma TokenTaken(s: string, i: nat, token: string, value: string)
    requires i < |s| && token != "" && token <= s[i..]
    requires Expand(value, token, s[..i], s[i + |token|..]) == value
    requires ReplaceFrom(s, i + |token|, token, value) == ReplacePlain(s[i + |token|..], token, value)
    ensures ReplaceFrom(s, i, token, value) == ReplacePlain(s[i..], token, value)
  {
    assert s[i..][|token|..] == s[i + |token|..];
  }

  lemma CharTaken(s: string, i: nat, token: string, value: string)
    requires i < |s| && token != "" && !(token <= s[i..])
    requires ReplaceFrom(s, i + 1, token, value) == ReplacePlain(s[i + 1..], token, value)
    ensures ReplaceFrom(s, i, token, value) == ReplacePlain(s[i..], token, value)
  {
    assert s[i..][1..] == s[i + 1..];
  }

  /** A stretch that is inert for the token is copied as it is, whatever follows. */
  lemma {:induction false} ReplaceSkips(p: string, s: string, token: string, value: string)
    requires Inert(p, token) && token != ""
    ensures ReplacePlain(p + s, token, value) == p + ReplacePlain(s, token, value)
  {
    if p == "" {
      assert p + s == s;
    } else {
      InertTail(p, token);
      ReplaceSkips(p[1..], s, token, value);
      HeadFirst(p, s);
      NotAtInert(p, s, token);
      ReplaceCopies(p[0], p[1..] + s, token, value);
      HeadFirst(p, ReplacePlain(s, token, value));
    }
  }

  lemma InertTail(p: string, token: string)
    requires Inert(p, token) && p != ""
    ensures Inert(p[1..], token)
  {
    forall i | 0 <= i < |p| - 1 ensures !(token <= p[1..][i..]) && !(p[1..][i..] <= token) {
      assert p[1..][i..] == p[i + 1..];
    }
  }

  lemma NotAtInert(p: string, s: string, token: string)
    requires Inert(p, token) && p != ""
    ensures !(token <= p + s)
  {
    assert p[0..] == p;
    if token <= p + s { PrefixOfConcat(token, p, s); }
  }

  lemma PrefixOfConcat(t: string, p: string, s: string)
    requires t <= p + s
    ensures t <= p || p <= t
  {
    if |t| <= |p| {
      assert (p + s)[..|t|] == p[..|t|];
    } else {
      assert (p + s)[..|t|][..|p|] == p;
    }
  }

  lemma TameIsInert(p: string, token: string)
    requires '{' !in p && token != "" && token[0] == '{'
    ensures Inert(p, token)
  {
    forall i | 0 <= i < |p| ensures !(token <= p[i..]) && !(p[i..] <= token) { assert p[i..][0] == p[i]; }
  }

  lemma ReplaceCopies(x: char, r: string, token: string, value: string)
    requires token != "" && !(token <= [x] + r)
    ensures ReplacePlain([x] + r, token, value) == [x] + ReplacePlain(r, token, value)
  {
  }

  // ---------------------------------------------------------------- one more variable at a time

  /** Inside an open brace, substitution does not touch anything up to and including the closing one. */
  lemma {:induction false} OpenStretchUnchanged(s: string, c: Client, vs: set<Variable>, p: string)
    requires NoNestedBrace(s, true) && '{' !in p && |p| > 0 && p[|p| - 1] == '}'
    requires p <= Substitute(s, c, vs)
    requires '}' !in p[..|p| - 1]
    ensures p <= s
  {
    if s != "" {
      assert s[0] != '{';
      assert forall v :: !StartsWith(s, v) by {
        forall v ensures !StartsWith(s, v) { assert Token(v)[0] == '{'; }
      }
      var t := Substitute(s[1..], c, vs);
      assert Substitute(s, c, vs) == [s[0]] + t;
      if |p| > 1 {
        assert p[0] in p[..|p| - 1];
        assert s[0] != '}';
        assert p[1..] <= t by { assert ([s[0]] + t)[1..] == t; }
        assert p[1..][..|p| - 2] == p[..|p| - 1][1..];
        OpenStretchUnchanged(s[1..], c, vs, p[1..]);
        assert s[1..][..|p| - 1] == p[1..];
        assert p == [p[0]] + p[1..];
      }
    }
  }

  /** Substituting the variables in vs brings about no occurrence of v's token that was not there. */
  ghost predicate NothingJoins(s: string, c: Client, vs: set<Variable>, v: Variable) {
    forall i :: 0 <= i < |s| && Token(v) <= [s[i]] + Substitute(s[i + 1..], c, vs) ==> StartsWith(s[i..], v)
  }

  lemma NothingJoinsLater(s: string, c: Client, vs: set<Variable>, v: Variable, k: nat)
    requires NothingJoins(s, c, vs, v) && k <= |s|
    ensures NothingJoins(s[k..], c, vs, v)
  {
    forall i | 0 <= i < |s| - k && Token(v) <= [s[k..][i]] + Substitute(s[k..][i + 1..], c, vs)
      ensures StartsWith(s[k..][i..], v)
    {
      assert s[k..][i] == s[k + i] && s[k..][i + 1..] == s[k + i + 1..] && s[k..][i..] == s[k + i..];
    }
  }

  lemma {:induction false} ReplaceAddsVariable(s: string, c: Client, vs: set<Variable>, v: Variable)
    requires NothingJoins(s, c, vs, v) && v !in vs && forall w :: w in vs ==> Inert(Value(c, w), Token(v))
    ensures ReplacePlain(Substitute(s, c, vs), Token(v), Value(c, v)) == Substitute(s, c, vs + {v})
    decreases |s|
  {
    if s != "" {
      if w :| StartsWith(s, w) {
        var rest := s[|Token(w)|..];
        assert s == Token(w) + rest;
        NothingJoinsLater(s, c, vs, v, |Token(w)|);
        ReplaceAddsVariable(rest, c, vs, v);
        if w in vs {
          TokenAlreadySubstituted(rest, c, vs, v, w);
        } else if w == v {
          TokenSubstitutedNow(rest, c, vs, v);
        } else {
          TokenOfAnother(rest, c, vs, v, w);
        }
      } else {
        NothingJoinsLater(s, c, vs, v, 1);
        ReplaceAddsVariable(s[1..], c, vs, v);
        PlainStep(s, c, vs, v);
      }
    }
  }

  lemma {:induction false} NestedWeaken(s: string)
    ensures NoNestedBrace(s, true) ==> NoNestedBrace(s, false)
  {
    if s != "" { NestedWeaken(s[1..]); }
  }

  lemma SubstitutedToken(rest: string, c: Client, vs: set<Variable>, w: Variable)
    requires w in vs
    ensures Substitute(Token(w) + rest, c, vs) == Value(c, w) + Substitute(rest, c, vs)
  {
    var s := Token(w) + rest;
    forall u | StartsWith(s, u) ensures u == w { StartsOnce(s, u, w); }
    assert s[|Token(w)|..] == rest;
  }

  lemma TokenAlreadySubstituted(rest: string, c: Client, vs: set<Variable>, v: Variable, w: Variable)
    requires w in vs && Inert(Value(c, w), Token(v))
    requires ReplacePlain(Substitute(rest, c, vs), Token(v), Value(c, v)) == Substitute(rest, c, vs + {v})
    ensures ReplacePlain(Substitute(Token(w) + rest, c, vs), Token(v), Value(c, v))
      == Substitute(Token(w) + rest, c, vs + {v})
  {
    SubstitutedToken(rest, c, vs, w);
    SubstitutedToken(rest, c, vs + {v}, w);
    ReplaceSkips(Value(c, w), Substitute(rest, c, vs), Token(v), Value(c, v));
  }

  lemma TokenSubstitutedNow(rest: string, c: Client, vs: set<Variable>, v: Variable)
    requires v !in vs
    requires ReplacePlain(Substitute(rest, c, vs), Token(v), Value(c, v)) == Substitute(rest, c, vs + {v})
    ensures ReplacePlain(Substitute(Token(v) + rest, c, vs), Token(v), Value(c, v))
      == Substitute(Token(v) + rest, c, vs + {v})
  {
    KeptToken(rest, c, vs, v);
    SubstitutedToken(rest, c, vs + {v}, v);
    var r := Substitute(rest, c, vs);
    assert (Token(v) + r)[|Token(v)|..] == r;
  }

  lemma TokenOfAnother(rest: string, c: Client, vs: set<Variable>, v: Variable, w: Variable)
    requires w !in vs && w != v
    requires ReplacePlain(Substitute(rest, c, vs), Token(v), Value(c, v)) == Substitute(rest, c, vs + {v})
    ensures ReplacePlain(Substitute(Token(w) + rest, c, vs), Token(v), Value(c, v))
      == Substitute(Token(w) + rest, c, vs + {v})
  {
    KeptToken(rest, c, vs, w);
    KeptToken(rest, c, vs + {v}, w);
    TokenIsSkipped(Substitute(rest, c, vs), v, w, Value(c, v));
  }

  lemma TokenIsSkipped(r: string, v: Variable, w: Variable, value: string)
    requires w != v
    ensures ReplacePlain(Token(w) + r, Token(v), value) == Token(w) + ReplacePlain(r, Token(v), value)
  {
    assert !StartsWith(Token(w) + r, v) by {
      if StartsWith(Token(w) + r, v) { StartsOnce(Token(w) + r, v, w); }
    }
    TokenShape(v);
    TokenShape(w);
    ReplaceSkipsWord(Token(w), r, Token(v), value);
  }

  lemma TokenShape(v: Variable)
    ensures var t := Token(v);
      |t| > 1 && t[0] == '{' && t[|t| - 1] == '}' && '{' !in t[1..] && '}' !in t[1..|t| - 1] && '$' !in t
  {
  }

  lemma ReplaceSkipsWord(t: string, r: string, token: string, value: string)
    requires t != "" && '{' !in t[1..] && token != "" && token[0] == '{' && !(token <= t + r)
    ensures ReplacePlain(t + r, token, value) == t + ReplacePlain(r, token, value)
  {
    HeadFirst(t, r);
    ReplaceCopies(t[0], t[1..] + r, token, value);
    TameIsInert(t[1..], token);
    ReplaceSkips(t[1..], r, token, value);
    HeadFirst(t, ReplacePlain(r, token, value));
  }

  /** A token outside vs is copied character by character. */
  lemma KeptToken(rest: string, c: Client, vs: set<Variable>, w: Variable)
    requires w !in vs
    ensures Substitute(Token(w) + rest, c, vs) == Token(w) + Substitute(rest, c, vs)
  {
    var t := Token(w);
    var s := t + rest;
    forall u | StartsWith(s, u) ensures u == w { StartsOnce(s, u, w); }
    TokenShape(w);
    HeadFirst(t, rest);
    assert s[0] == t[0] && s[1..] == t[1..] + rest;
    SubstituteSkips(t[1..], rest, c, vs);
    HeadFirst(t, Substitute(rest, c, vs));
  }

  lemma {:induction false} SubstituteSkips(p: string, s: string, c: Client, vs: set<Variable>)
    requires '{' !in p
    ensures Substitute(p + s, c, vs) == p + Substitute(s, c, vs)
  {
    if p == "" {
      assert p + s == s;
    } else {
      SubstituteSkips(p[1..], s, c, vs);
      HeadFirst(p, s);
      SubstituteCopies(p[0], p[1..] + s, c, vs);
      HeadFirst(p, Substitute(s, c, vs));
    }
  }

  lemma HeadFirst(p: string, s: string)
    requires p != ""
    ensures p + s == [p[0]] + (p[1..] + s)
  {
  }

  lemma SubstituteCopies(x: char, r: string, c: Client, vs: set<Variable>)
    requires x != '{'
    ensures Substitute([x] + r, c, vs) == [x] + Substitute(r, c, vs)
  {
  }

  /** No token starts s: the first character stays, and it cannot begin a token made by substitution. */
  lemma PlainStep(s: string, c: Client, vs: set<Variable>, v: Variable)
    requires s != "" && NothingJoins(s, c, vs, v) && v !in vs && forall u :: !StartsWith(s, u)
    requires ReplacePlain(Substitute(s[1..], c, vs), Token(v), Value(c, v)) == Substitute(s[1..], c, vs + {v})
    ensures ReplacePlain(Substitute(s, c, vs), Token(v), Value(c, v)) == Substitute(s, c, vs + {v})
  {
    assert s[0..] == s;
    ReplaceCopies(s[0], Substitute(s[1..], c, vs), Token(v), Value(c, v));
  }

  lemma NoTokenAppears(s: string, c: Client, vs: set<Variable>, t: string)
    requires s != "" && NoNestedBrace(s, false) && !(t <= s)
    requires |t| > 1 && t[0] == '{' && t[|t| - 1] == '}' && '{' !in t[1..] && '}' !in t[1..|t| - 1]
    ensures !(t <= [s[0]] + Substitute(s[1..], c, vs))
  {
    var r := Substitute(s[1..], c, vs);
    if t <= [s[0]] + r {
      assert s[0] == t[0];
      assert t[1..] <= r by { assert ([s[0]] + r)[1..] == r; }
      assert t[1..][..|t| - 2] == t[1..|t| - 1];
      OpenStretchUnchanged(s[1..], c, vs, t[1..]);
      HeadFirst(t, "");
      assert false;
    }
  }

  lemma {:induction false} NestedTail(s: string, open: bool, k: nat)
    requires NoNestedBrace(s, open) && k <= |s|
    ensures NoNestedBrace(s[k..], false)
  {
    if k > 0 {
      NestedTail(s[1..], if s[0] == '{' then true else open && s[0] != '}', k - 1);
      assert s[1..][k - 1..] == s[k..];
    } else {
      assert s[k..] == s;
      if open { NestedWeaken(s); }
    }
  }

  lemma UnnestedJoinsNothing(s: string, c: Client, vs: set<Variable>, v: Variable)
    requires NoNestedBrace(s, false)
    ensures NothingJoins(s, c, vs, v)
  {
    forall i | 0 <= i < |s| && Token(v) <= [s[i]] + Substitute(s[i + 1..], c, vs) ensures StartsWith(s[i..], v) {
      NestedTail(s, false, i);
      TokenShape(v);
      assert s[i..][0] == s[i] && s[i..][1..] == s[i + 1..];
      if !StartsWith(s[i..], v) { NoTokenAppears(s[i..], c, vs, Token(v)); }
    }
  }

  lemma SubstituteNothing(s: string, c: Client)
    ensures Substitute(s, c, {}) == s
  {
  }

  const ALL_VARIABLES := {Name, Phone, Status}

  lemma ReplaceStep(body: string, c: Client, vs: set<Variable>, v: Variable)
    requires NothingJoins(body, c, vs, v) && v !in vs && NoInstruction(Value(c, v))
    requires forall w :: w in vs ==> Inert(Value(c, w), Token(v))
    ensures ReplaceAll(Substitute(body, c, vs), Token(v), Value(c, v)) == Substitute(body, c, vs + {v})
  {
    var s := Substitute(body, c, vs);
    ReplaceFromIsPlain(s, 0, Token(v), Value(c, v));
    assert s[0..] == s;
    ReplaceAddsVariable(body, c, vs, v);
  }

  predicate IsOrder(order: seq<Variable>) { |order| == 3 && forall i, j :: 0 <= i < j < 3 ==> order[i] != order[j] }

  lemma OrderFacts(order: seq<Variable>)
    requires IsOrder(order)
    ensures {order[0]} + {order[1]} + {order[2]} == ALL_VARIABLES
  {
    assert order[0] != order[1] && order[0] != order[2] && order[1] != order[2];
  }

  lemma ChainedThree(body: string, c: Client, order: seq<Variable>)
    requires |order| == 3
    ensures var one := ReplaceAll(body, Token(order[0]), Value(c, order[0]));
      var two := ReplaceAll(one, Token(order[1]), Value(c, order[1]));
      Chained(body, c, order) == ReplaceAll(two, Token(order[2]), Value(c, order[2]))
  {
    var one := ReplaceAll(body, Token(order[0]), Value(c, order[0]));
    var two := ReplaceAll(one, Token(order[1]), Value(c, order[1]));
    assert order[1..][1..] == [order[2]] && [order[2]][1..] == [];
    assert Chained(body, c, order) == Chained(one, c, order[1..]) == Chained(two, c, [order[2]]);
  }

  /** Replaces chained in an order in which every value is safe are one simultaneous substitution. */
  lemma SafeOrderIsSimultaneous(body: string, c: Client, order: seq<Variable>)
    requires NoNestedBrace(body, false) && IsOrder(order) && SafeInOrder(c, order)
    ensures Chained(body, c, order) == Substitute(body, c, ALL_VARIABLES)
  {
    var u, v, w := order[0], order[1], order[2];
    OrderFacts(order);
    assert v in order[1..] && w in order[1..] && w in order[2..];
    SubstituteNothing(body, c);
    UnnestedJoinsNothing(body, c, {}, u);
    UnnestedJoinsNothing(body, c, {u}, v);
    UnnestedJoinsNothing(body, c, {u} + {v}, w);
    ReplaceStep(body, c, {}, u);
    ReplaceStep(body, c, {u}, v);
    ReplaceStep(body, c, {u} + {v}, w);
    assert {} + {u} == {u};
    ChainedThree(body, c, order);
  }

  lemma BracelessIsSafe(value: string, later: seq<Variable>)
    requires '{' !in value && NoInstruction(value)
    ensures SafeBefore(value, later)
  {
    forall v | v in later ensures Inert(value, Token(v)) {
      TokenShape(v);
      TameIsInert(value, Token(v));
    }
  }

  /** With no opening brace and no instruction in any value, the order does not matter. */
  lemma AnyOrderIsSimultaneous(body: string, c: Client, order: seq<Variable>)
    requires NoNestedBrace(body, false) && IsOrder(order)
    requires forall v :: '{' !in Value(c, v) && NoInstruction(Value(c, v))
    ensures Chained(body, c, order) == Substitute(body, c, ALL_VARIABLES)
  {
    forall i | 0 <= i < |order| ensures SafeBefore(Value(c, order[i]), order[i + 1..]) {
      BracelessIsSafe(Value(c, order[i]), order[i + 1..]);
    }
    SafeOrderIsSimultaneous(body, c, order);
  }

  // ---------------------------------------------------------------- and only then

  function Count(s: string, x: char): nat { if s == "" then 0 else (if s[0] == x then 1 else 0) + Count(s[1..], x) }

  lemma {:induction false} CountConcat(s: string, t: string, x: char)
    ensures Count(s + t, x) == Count(s, x) + Count(t, x)
  {
    if s == "" {
      assert s + t == t;
    } else {
      assert (s + t)[1..] == s[1..] + t;
      CountConcat(s[1..], t, x);
    }
  }

  lemma {:induction false} CountAbsent(s: string, x: char)
    requires x !in s
    ensures Count(s, x) == 0
  {
    if s != "" { CountAbsent(s[1..], x); }
  }

  /** Each instruction that is carried out costs a dollar sign. */
  lemma {:induction false} InstructionsCost(r: string, token: string)
    requires '$' !in token
    ensures Count(Expand(r, token, "", ""), '$') <= Count(r, '$')
    ensures !NoInstruction(r) ==> Count(Expand(r, token, "", ""), '$') < Count(r, '$')
  {
    if r == "" {
    } else if |r| >= 2 && r[0] == '$' && r[1] in "$&`'" {
      InstructionsCost(r[2..], token);
      var put := match r[1] case '$' => "$" case '&' => token case '`' => "" case _ => "";
      CountConcat(put, Expand(r[2..], token, "", ""), '$');
      CountAbsent(token, '$');
      assert r == [r[0]] + ([r[1]] + r[2..]);
      assert Count(r, '$') == 1 + Count(r[1..], '$') && r[1..] == [r[1]] + r[2..];
    } else {
      InstructionsCost(r[1..], token);
      var rest := Expand(r[1..], token, "", "");
      assert ([r[0]] + rest)[1..] == rest;
      if NoInstruction(r[1..]) { InstructionLater(r); }
    }
  }

  lemma InstructionLater(r: string)
    requires r != "" && NoInstruction(r[1..]) && !(|r| >= 2 && r[0] == '$' && r[1] in "$&`'")
    ensures NoInstruction(r)
  {
    forall i | 0 <= i < |r| - 1 && r[i] == '$' ensures r[i + 1] !in "$&`'" {
      if i > 0 { assert r[1..][i - 1] == '$' && r[1..][i] == r[i + 1]; }
    }
  }

  predicate Occurs(s: string, token: string) { exists i :: 0 <= i < |s| && token <= s[i..] }

  lemma OccursLater(s: string, token: string)
    requires s != "" && !(token <= s)
    ensures Occurs(s, token) <==> Occurs(s[1..], token)
  {
    if i :| 0 <= i < |s| && token <= s[i..] {
      assert s[0..] == s;
      assert s[1..][i - 1..] == s[i..];
    }
    if i :| 0 <= i < |s[1..]| && token <= s[1..][i..] { assert s[1..][i..] == s[i + 1..]; }
  }

  /** A replace whose value lacks x adds no x, and takes some away if its token has x and occurs. */
  lemma {:induction false} ReplaceCount(s: string, token: string, value: string, x: char)
    requires token != "" && x !in value
    ensures Count(ReplacePlain(s, token, value), x) <= Count(s, x)
    ensures Occurs(s, token) && token[0] == x ==> Count(ReplacePlain(s, token, value), x) < Count(s, x)
    decreases |s|
  {
    if s == "" {
    } else if token <= s {
      var rest := s[|token|..];
      ReplaceCount(rest, token, value, x);
      CountConcat(value, ReplacePlain(rest, token, value), x);
      CountAbsent(value, x);
      assert s == token + rest;
      CountConcat(token, rest, x);
    } else {
      ReplaceCount(s[1..], token, value, x);
      OccursLater(s, token);
      var rest := ReplacePlain(s[1..], token, value);
      assert ([s[0]] + rest)[1..] == rest;
    }
  }

  lemma {:induction false} ReplaceAbsent(s: string, token: string, value: string)
    requires token != "" && !Occurs(s, token)
    ensures ReplacePlain(s, token, value) == s
  {
    if s != "" {
      assert s[0..] == s;
      OccursLater(s, token);
      ReplaceAbsent(s[1..], token, value);
    }
  }

  lemma TameAll(s: string, token: string, value: string)
    requires Tame(value) && token != ""
    ensures NoInstruction(value) && ReplaceAll(s, token, value) == ReplacePlain(s, token, value)
  {
    ReplaceFromIsPlain(s, 0, token, value);
    assert s[0..] == s;
  }

  predicate TameValues(c: Client, order: seq<Variable>) { forall v :: v in order ==> Tame(Value(c, v)) }

  lemma {:induction false} ChainedCount(s: string, c: Client, order: seq<Variable>, x: char)
    requires TameValues(c, order) && x in "{$"
    ensures Count(Chained(s, c, order), x) <= Count(s, x)
    decreases |order|
  {
    if |order| > 0 {
      var v := order[0];
      TameAll(s, Token(v), Value(c, v));
      ReplaceCount(s, Token(v), Value(c, v), x);
      ChainedCount(ReplaceAll(s, Token(v), Value(c, v)), c, order[1..], x);
    }
  }

  /** A token that occurs when its replace is still to come costs an opening brace. */
  lemma {:induction false} ChainedCostsBrace(s: string, c: Client, order: seq<Variable>, w: Variable)
    requires TameValues(c, order) && w in order && Occurs(s, Token(w))
    ensures Count(Chained(s, c, order), '{') < Count(s, '{')
    decreases |order|
  {
    var v := order[0];
    var one := ReplaceAll(s, Token(v), Value(c, v));
    TameAll(s, Token(v), Value(c, v));
    ReplaceCount(s, Token(v), Value(c, v), '{');
    if Occurs(s, Token(v)) {
      ChainedCount(one, c, order[1..], '{');
    } else {
      ReplaceAbsent(s, Token(v), Value(c, v));
      ChainedCostsBrace(one, c, order[1..], w);
    }
  }

  lemma {:induction false} ChainedSplit(s: string, c: Client, a: seq<Variable>, b: seq<Variable>)
    ensures Chained(s, c, a + b) == Chained(Chained(s, c, a), c, b)
    decreases |a|
  {
    if a == [] {
      assert a + b == b;
    } else {
      assert (a + b)[1..] == a[1..] + b;
      ChainedSplit(ReplaceAll(s, Token(a[0]), Value(c, a[0])), c, a[1..], b);
    }
  }

  /** Replaces of other variables pass a token by. */
  lemma {:induction false} ChainedPasses(x: Variable, rest: string, c: Client, order: seq<Variable>)
    requires x !in order && TameValues(c, order) && '{' !in rest
    ensures Chained(Token(x) + rest, c, order) == Token(x) + rest
  {
    if |order| > 0 {
      var v := order[0];
      TameAll(Token(x) + rest, Token(v), Value(c, v));
      TokenIsSkipped(rest, v, x, Value(c, v));
      NoBraceNoToken(rest, Token(v));
      ReplaceAbsent(rest, Token(v), Value(c, v));
      ChainedPasses(x, rest, c, order[1..]);
    }
  }

  lemma NoBraceNoToken(s: string, token: string)
    requires '{' !in s && token != "" && token[0] == '{'
    ensures !Occurs(s, token)
  {
    forall i | 0 <= i < |s| ensures !(token <= s[i..]) { assert s[i..][0] == s[i]; }
  }

  lemma {:induction false} NoBraceNotNested(s: string, open: bool)
    requires '{' !in s
    ensures NoNestedBrace(s, open)
  {
    if s != "" { NoBraceNotNested(s[1..], open && s[0] != '}'); }
  }

  /** A variable and some text after it: what the body should become, and what becomes of it. */
  lemma TokenThenText(c: Client, order: seq<Variable>, p: nat, rest: string)
    requires IsOrder(order) && p < |order| && '{' !in rest
    requires TameValues(c, order[..p])
    ensures var x, body := order[p], Token(order[p]) + rest;
      && NoNestedBrace(body, false)
      && Substitute(body, c, ALL_VARIABLES) == Value(c, x) + rest
      && Chained(body, c, order) == Chained(ReplaceAll(body, Token(x), Value(c, x)), c, order[p + 1..])
  {
    SubstituteTokenText(c, order[p], rest);
    ChainedFrom(c, order, p, rest);
  }

  lemma ChainedFrom(c: Client, order: seq<Variable>, p: nat, rest: string)
    requires IsOrder(order) && p < |order| && '{' !in rest && TameValues(c, order[..p])
    ensures var x, body := order[p], Token(order[p]) + rest;
      Chained(body, c, order) == Chained(ReplaceAll(body, Token(x), Value(c, x)), c, order[p + 1..])
  {
    var x, body := order[p], Token(order[p]) + rest;
    assert x !in order[..p];
    ChainedPasses(x, rest, c, order[..p]);
    ChainedSplit(body, c, order[..p], order[p..]);
    assert order == order[..p] + order[p..];
    assert order[p..][1..] == order[p + 1..];
  }

  lemma BracedNotNested(t: string, rest: string)
    requires t != "" && t[0] == '{' && '{' !in t[1..] && '{' !in rest
    ensures NoNestedBrace(t + rest, false)
  {
    HeadFirst(t, rest);
    assert (t + rest)[1..] == t[1..] + rest;
    NoBraceNotNested(t[1..] + rest, true);
  }

  lemma SubstituteTokenText(c: Client, x: Variable, rest: string)
    requires '{' !in rest
    ensures NoNestedBrace(Token(x) + rest, false)
    ensures Substitute(Token(x) + rest, c, ALL_VARIABLES) == Value(c, x) + rest
  {
    TokenShape(x);
    BracedNotNested(Token(x), rest);
    SubstitutedToken(rest, c, ALL_VARIABLES, x);
    SubstituteSkips(rest, "", c, ALL_VARIABLES);
    assert rest + "" == rest && Substitute("", c, ALL_VARIABLES) == "";
  }

  ghost predicate AlwaysSimultaneous(c: Client, order: seq<Variable>) {
    forall body :: NoNestedBrace(body, false) ==> Chained(body, c, order) == Substitute(body, c, ALL_VARIABLES)
  }

  lemma NotAlways(c: Client, order: seq<Variable>, body: string)
    requires NoNestedBrace(body, false) && Chained(body, c, order) != Substitute(body, c, ALL_VARIABLES)
    ensures !AlwaysSimultaneous(c, order)
  {
  }

  lemma ReplaceOwnToken(t: string, value: string)
    requires t != ""
    ensures ReplaceAll(t, t, value) == Expand(value, t, "", "")
  {
    assert t[..0] == "" && t[|t|..] == "" && t[0..] == t;
    assert ReplaceFrom(t, |t|, t, value) == "";
  }

  lemma ReplaceOwnTokenAndText(t: string, rest: string, value: string)
    requires t != "" && t[0] == '{' && '{' !in rest && NoInstruction(value)
    ensures ReplaceAll(t + rest, t, value) == value + rest
  {
    var body := t + rest;
    ReplaceFromIsPlain(body, 0, t, value);
    assert body[0..] == body && body[|t|..] == rest;
    NoBraceNoToken(rest, t);
    ReplaceAbsent(rest, t, value);
  }

  lemma InstructionIsCarriedOut(c: Client, order: seq<Variable>, p: nat)
    requires IsOrder(order) && p < |order|
    requires TameValues(c, order[..p]) && TameValues(c, order[p + 1..]) && !NoInstruction(Value(c, order[p]))
    ensures !AlwaysSimultaneous(c, order)
  {
    var t, value := Token(order[p]), Value(c, order[p]);
    TokenThenText(c, order, p, "");
    assert t + "" == t && value + "" == value;
    TokenShape(order[p]);
    ReplaceOwnToken(t, value);
    InstructionsCost(value, t);
    ChainedCount(ReplaceAll(t, t, value), c, order[p + 1..], '$');
    NotAlways(c, order, t);
  }

  /** The text that completes a token begun by a suffix of the value, or nothing if the value holds it already. */
  function Completing(value: string, token: string, i: nat): string
    requires i < |value| && (token <= value[i..] || value[i..] <= token)
  {
    if token <= value[i..] then "" else token[|value| - i..]
  }

  lemma Completed(value: string, token: string, i: nat)
    requires i < |value| && (token <= value[i..] || value[i..] <= token)
    ensures Occurs(value + Completing(value, token, i), token)
    ensures token != "" && '{' !in token[1..] ==> '{' !in Completing(value, token, i)
  {
    var rest := Completing(value, token, i);
    assert (value + rest)[i..] == value[i..] + rest;
  }

  lemma JoinedCost(c: Client, later: seq<Variable>, t: string, rest: string, value: string, v: Variable)
    requires TameValues(c, later) && v in later && Occurs(value + rest, Token(v))
    requires t != "" && t[0] == '{' && '{' !in rest && NoInstruction(value)
    ensures Count(Chained(ReplaceAll(t + rest, t, value), c, later), '{') < Count(value + rest, '{')
  {
    ReplaceOwnTokenAndText(t, rest, value);
    ChainedCostsBrace(value + rest, c, later, v);
  }

  lemma JoinedTokenIsRescanned(c: Client, order: seq<Variable>, p: nat, v: Variable, i: nat)
    requires IsOrder(order) && p < |order| && v in order[p + 1..]
    requires TameValues(c, order[..p]) && TameValues(c, order[p + 1..])
    requires var value := Value(c, order[p]);
      NoInstruction(value) && i < |value| && (Token(v) <= value[i..] || value[i..] <= Token(v))
    ensures !AlwaysSimultaneous(c, order)
  {
    var t, value := Token(order[p]), Value(c, order[p]);
    var rest := Completing(value, Token(v), i);
    TokenShape(v);
    TokenShape(order[p]);
    Completed(value, Token(v), i);
    TokenThenText(c, order, p, rest);
    JoinedCost(c, order[p + 1..], t, rest, value, v);
    NotAlways(c, order, t + rest);
  }

  /**
   Let all values but the one of order[p] be tame. Then chaining the replaces in this order is one
   simultaneous substitution, for every body without nested braces, if and only if that one value holds no
   instruction, holds no token that is replaced later, and ends in no beginning of such a token.
   */
  lemma OneFreeValueIff(c: Client, order: seq<Variable>, p: nat)
    requires IsOrder(order) && p < |order|
    requires TameValues(c, order[..p]) && TameValues(c, order[p + 1..])
    ensures AlwaysSimultaneous(c, order) <==> SafeBefore(Value(c, order[p]), order[p + 1..])
  {
    var value := Value(c, order[p]);
    if SafeBefore(value, order[p + 1..]) {
      forall i | 0 <= i < |order| ensures SafeBefore(Value(c, order[i]), order[i + 1..]) {
        if i != p {
          assert order[i] in order[..p] || order[i] in order[p + 1..];
          BracelessIsSafe(Value(c, order[i]), order[i + 1..]);
        }
      }
      forall body | NoNestedBrace(body, false) ensures Chained(body, c, order) == Substitute(body, c, ALL_VARIABLES) {
        SafeOrderIsSimultaneous(body, c, order);
      }
    } else if NoInstruction(value) {
      var v :| v in order[p + 1..] && !Inert(value, Token(v));
      var i :| 0 <= i < |value| && (Token(v) <= value[i..] || value[i..] <= Token(v));
      JoinedTokenIsRescanned(c, order, p, v, i);
    } else {
      InstructionIsCarriedOut(c, order, p);
    }
  }

  ghost predicate RendersRight(c: Client) {
    forall body :: NoNestedBrace(body, false) ==> RenderTemplate(body, c) == Substitute(body, c, ALL_VARIABLES)
  }

  /** For the program's order, and a client whose phone and status are tame, it is all a matter of the name. */
  lemma NameDecides(c: Client)
    requires Tame(c.phone) && Tame(c.status)
    ensures RendersRight(c) <==> NoInstruction(c.name) && Inert(c.name, "{phone}") && Inert(c.name, "{status}")
  {
    var order := [Name, Phone, Status];
    assert order[..0] == [] && order[1..] == [Phone, Status];
    assert Value(c, Name) == c.name && Token(Phone) == "{phone}" && Token(Status) == "{status}";
    OneFreeValueIff(c, order, 0);
    forall body ensures RenderTemplate(body, c) == Chained(body, c, order) { ChainedThree(body, c, order); }
    assert Phone in order[1..] && Status in order[1..];
  }

  /** The status comes last: it may hold anything but an instruction. */
  lemma StatusDecides(c: Client)
    requires Tame(c.name) && Tame(c.phone)
    ensures RendersRight(c) <==> NoInstruction(c.status)
  {
    var order := [Name, Phone, Status];
    assert order[..2] == [Name, Phone] && order[3..] == [];
    OneFreeValueIff(c, order, 2);
    forall body ensures RenderTemplate(body, c) == Chained(body, c, order) { ChainedThree(body, c, order); }
  }

  // ---------------------------------------------------------------- why the conditions are there

  /** A value that spells another variable is substituted a second time. */
  lemma BraceInNameIsRescanned(c: Client)
    requires c.name == "{phone}" && Tame(c.phone) && c.phone != ""
    ensures RenderTemplate("{name}", c) == "+" + c.phone
    ensures Substitute("{name}", c, ALL_VARIABLES) == "{phone}"
  {
    ReplaceWholeToken(Name, c.name);
    ReplaceWholeToken(Phone, Value(c, Phone));
    NoTokenNoChange("+" + c.phone, Status, c.status);
    SubstitutedToken("", c, {Name, Phone, Status}, Name);
    assert Token(Name) + "" == "{name}";
  }

  /** A '$' in a value is an instruction to the replace: here it puts the token back. */
  lemma DollarInNameIsExpanded(c: Client)
    requires c.name == "$&" && Tame(c.phone) && Tame(c.status)
    ensures RenderTemplate("{name}", c) == "{name}"
    ensures Substitute("{name}", c, ALL_VARIABLES) == "$&"
  {
    var s := Token(Name);
    assert s[0..] == s && s[..0] == "" && s[6..] == "";
    assert Expand("$&", s, "", "") == s + Expand("", s, "", "") by { assert "$&"[2..] == ""; }
    assert ReplaceFrom(s, 6, s, "$&") == "";
    assert ReplaceAll(s, s, "$&") == s;
    ReplaceFromIsPlain(s, 0, Token(Phone), Value(c, Phone));
    ReplaceFromIsPlain(s, 0, Token(Status), Value(c, Status));
    OtherTokenStays(Phone, Value(c, Phone));
    OtherTokenStays(Status, Value(c, Status));
    SubstitutedToken("", c, {Name, Phone, Status}, Name);
    assert Token(Name) + "" == "{name}";
  }

  /** What the four instructions put in the place of a token: a dollar, the token, what is before it, what is after. */
  lemma InstructionsMean(x: string, t: string, y: string)
    requires '{' !in x && '{' !in y && t != "" && t[0] == '{'
    ensures ReplaceAll(x + t + y, t, "$$") == x + "$" + y
    ensures ReplaceAll(x + t + y, t, "$&") == x + t + y
    ensures ReplaceAll(x + t + y, t, "$`") == x + x + y
    ensures ReplaceAll(x + t + y, t, "$'") == x + y + y
  {
    ReplacedBetween(x, t, y, "$$");
    ReplacedBetween(x, t, y, "$&");
    ReplacedBetween(x, t, y, "$`");
    ReplacedBetween(x, t, y, "$'");
    forall r | r in {"$$", "$&", "$`", "$'"} ensures r[2..] == "" {}
    assert Expand("", t, x, y) == "";
  }

  lemma ReplacedBetween(x: string, t: string, y: string, value: string)
    requires '{' !in x && '{' !in y && t != "" && t[0] == '{'
    ensures ReplaceAll(x + t + y, t, value) == x + Expand(value, t, x, y) + y
  {
    var s := x + t + y;
    CopiedUpTo(s, 0, |x|, t, value);
    assert s[..|x|] == x && s[|x|..] == t + y && s[|x| + |t|..] == y && s[0..|x|] == x;
    CopiedUpTo(s, |x| + |t|, |s|, t, value);
    assert s[|x| + |t|..|s|] == y;
  }

  lemma {:induction false} CopiedUpTo(s: string, i: nat, j: nat, token: string, value: string)
    requires i <= j <= |s| && '{' !in s[i..j] && token != "" && token[0] == '{'
    ensures ReplaceFrom(s, i, token, value) == s[i..j] + ReplaceFrom(s, j, token, value)
    decreases j - i
  {
    if i < j {
      assert s[i] in s[i..j] && !(token <= s[i..]) by { assert s[i..][0] == s[i] == s[i..j][0]; }
      assert s[i..j] == [s[i]] + s[i + 1..j];
      CopiedUpTo(s, i + 1, j, token, value);
    }
  }

  lemma OtherTokenStays(v: Variable, value: string)
    requires v != Name
    ensures ReplacePlain(Token(Name), Token(v), value) == Token(Name)
  {
    var t := Token(Name);
    assert t + "" == t;
    assert !StartsWith(t, v) by { if StartsWith(t, v) { StartsOnce(t, v, Name); } }
    ReplaceSkipsWord(t, "", Token(v), value);
  }

  lemma ReplaceWholeToken(v: Variable, value: string)
    requires NoInstruction(value)
    ensures ReplaceAll(Token(v), Token(v), value) == value
  {
    var t := Token(v);
    ReplaceFromIsPlain(t, 0, t, value);
    assert t[0..] == t && t[|t|..] == "";
    assert ReplacePlain("", t, value) == "" && value + "" == value;
  }

  lemma NoTokenNoChange(s: string, v: Variable, value: string)
    requires '{' !in s
    ensures ReplaceAll(s, Token(v), value) == s
  {
    ReplaceFromCopies(s, 0, Token(v), value);
    assert s[0..] == s;
  }

  lemma {:induction false} ReplaceFromCopies(s: string, i: nat, token: string, value: string)
    requires '{' !in s && i <= |s| && token != "" && token[0] == '{'
    ensures ReplaceFrom(s, i, token, value) == s[i..]
    decreases |s| - i
  {
    if i < |s| {
      assert !(token <= s[i..]) by { assert s[i..][0] == s[i]; }
      ReplaceFromCopies(s, i + 1, token, value);
    }
  }

  /** With a nested brace the outer characters can join a value into a new token. */
  lemma NestedBraceIsRescanned(c: Client)
    requires c.name == "phone" && Tame(c.phone) && c.phone != ""
    ensures RenderTemplate("{{name}}", c) == "+" + c.phone
    ensures Substitute("{{name}}", c, ALL_VARIABLES) == "{phone}"
  {
    InnerReplaced(c.name);
    assert "{" + c.name + "}" == Token(Phone) == "{phone}";
    ReplaceWholeToken(Phone, Value(c, Phone));
    NoTokenNoChange("+" + c.phone, Status, c.status);
    InnerSubstituted(c);
  }

  lemma OuterBraceStartsNothing(v: Variable)
    ensures !StartsWith("{{name}}", v)
  {
    assert Token(v)[1] != "{{name}}"[1];
  }

  lemma InnerReplaced(value: string)
    requires NoInstruction(value)
    ensures ReplaceAll("{{name}}", Token(Name), value) == "{" + value + "}"
  {
    var body, tail := "{{name}}", "{name}}";
    OuterBraceStartsNothing(Name);
    ReplaceFromIsPlain(body, 0, Token(Name), value);
    assert body[0..] == body && body == ['{'] + tail;
    ReplaceCopies('{', tail, Token(Name), value);
    assert tail[6..] == "}";
    NoTokenInBrace(Token(Name), value);
  }

  lemma InnerSubstituted(c: Client)
    ensures Substitute("{{name}}", c, ALL_VARIABLES) == "{" + c.name + "}"
  {
    var body, tail := "{{name}}", "{name}}";
    forall v ensures !StartsWith(body, v) { OuterBraceStartsNothing(v); }
    assert body[1..] == tail && tail == Token(Name) + "}";
    SubstitutedToken("}", c, ALL_VARIABLES, Name);
    SubstituteSkips("}", "", c, ALL_VARIABLES);
    assert "}" + "" == "}" && Substitute("", c, ALL_VARIABLES) == "";
  }

  lemma NoTokenInBrace(token: string, value: string)
    requires token != "" && token[0] == '{'
    ensures ReplacePlain("}", token, value) == "}"
  {
  }
}
