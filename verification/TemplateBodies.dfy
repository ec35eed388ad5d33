/**
 Which message bodies `renderTemplate` (mobile/src/store/campaignsStore.js) substitutes all at once. A body
 goes wrong if text around a variable can join with its value into a variable that is replaced later.
 */
module TemplateBodies {
  import opened Templates

  /**
   The text s supplies the characters `want`, one by one, or reaches a name on the way, whose value can supply
   the rest. Before the status is replaced an empty phone supplies nothing and is no obstacle.
   */
  predicate Supplies(s: string, want: string, v: Variable)
    decreases |s|
  {
    if want == "" then true
    else if StartsWith(s, Name) then true
    else if v == Status && StartsWith(s, Phone) then Supplies(s[7..], want, v)
    else s != "" && s[0] == want[0] && Supplies(s[1..], want[1..], v)
  }

  /** The first character is a brace that does not begin v's token, but can come to begin it. */
  predicate JoinsAt(s: string, v: Variable) {
    s != "" && s[0] == '{' && !StartsWith(s, v) && Supplies(s[1..], Token(v)[1..], v)
  }

  predicate Joinable(body: string) {
    exists i :: 0 <= i < |body| && (JoinsAt(body[i..], Phone) || JoinsAt(body[i..], Status))
  }

  /** What remains of a token after its opening brace, or after more of it. */
  predicate Remainder(want: string, v: Variable) {
    |want| < |Token(v)| && want == Token(v)[|Token(v)| - |want|..]
  }

  lemma RemainderFacts(want: string, v: Variable)
    requires Remainder(want, v)
    ensures '{' !in want && '$' !in want && '+' !in want
    ensures want != "" ==> Remainder(want[1..], v)
  {
    TokenShape(v);
    var t := Token(v);
    var k := |t| - |want|;
    assert t == match v case Name => "{name}" case Phone => "{phone}" case Status => "{status}";
    assert '+' !in t;
    if want != "" { assert want[1..] == t[k + 1..]; }
    forall i | 0 <= i < |want| ensures want[i] != '{' && want[i] != '$' && want[i] != '+' {
      assert want[i] == t[1..][k - 1 + i];
    }
  }

  lemma RemainderOfToken(v: Variable)
    ensures Remainder(Token(v)[1..], v) && Token(v) == ['{'] + Token(v)[1..]
  {
    TokenShape(v);
  }

  // ---------------------------------------------------------------- a body that cannot join

  /** The variables that have been replaced when v's turn comes. */
  function Earlier(v: Variable): set<Variable> {
    match v
    case Name => {}
    case Phone => {Name}
    case Status => {Name, Phone}
  }

  lemma NoPlusNoPhone(c: Client, want: string, rest: string)
    requires want != "" && '+' !in want && want <= Value(c, Phone) + rest
    ensures Value(c, Phone) == ""
  {
    assert want[0] == (Value(c, Phone) + rest)[0];
  }

  lemma {:induction false} JoinedIsSupplied(s: string, c: Client, want: string, v: Variable)
    requires v != Name && Remainder(want, v) && want <= Substitute(s, c, Earlier(v))
    ensures Supplies(s, want, v)
    decreases |s|
  {
    RemainderFacts(want, v);
    if want != "" && s != "" && !StartsWith(s, Name) {
      if v == Status && StartsWith(s, Phone) {
        var p, rest := Value(c, Phone), Substitute(s[7..], c, Earlier(v));
        assert Substitute(s, c, Earlier(v)) == p + rest;
        NoPlusNoPhone(c, want, rest);
        assert p + rest == rest;
        JoinedIsSupplied(s[7..], c, want, v);
      } else {
        var rest := Substitute(s[1..], c, Earlier(v));
        assert Substitute(s, c, Earlier(v)) == [s[0]] + rest;
        assert want[1..] <= rest by { assert ([s[0]] + rest)[1..] == rest; }
        JoinedIsSupplied(s[1..], c, want[1..], v);
      }
    }
  }

  lemma UnjoinableJoinsNothing(s: string, c: Client, v: Variable)
    requires !Joinable(s)
    ensures NothingJoins(s, c, Earlier(v), v)
  {
    forall i | 0 <= i < |s| && Token(v) <= [s[i]] + Substitute(s[i + 1..], c, Earlier(v))
      ensures StartsWith(s[i..], v)
    {
      var rest := Substitute(s[i + 1..], c, Earlier(v));
      assert s[i..] == [s[i]] + s[i + 1..] && s[i..][1..] == s[i + 1..];
      RemainderOfToken(v);
      assert ([s[i]] + rest)[1..] == rest;
      if v == Name {
        SubstituteNothing(s[i + 1..], c);
      } else {
        JoinedIsSupplied(s[i + 1..], c, Token(v)[1..], v);
        assert !JoinsAt(s[i..], v);
      }
    }
  }

  /**
   With a body that cannot join, and values that are safe in the program's order, rendering is one
   simultaneous substitution.
   */
  lemma RenderIsSimultaneous(body: string, c: Client)
    requires !Joinable(body) && SafeInOrder(c, [Name, Phone, Status])
    ensures RenderTemplate(body, c) == Substitute(body, c, ALL_VARIABLES)
  {
    SafeValues(c);
    SubstituteNothing(body, c);
    UnjoinableJoinsNothing(body, c, Name);
    UnjoinableJoinsNothing(body, c, Phone);
    UnjoinableJoinsNothing(body, c, Status);
    ReplaceStep(body, c, Earlier(Name), Name);
    ReplaceStep(body, c, Earlier(Phone), Phone);
    ReplaceStep(body, c, Earlier(Status), Status);
    assert {} + {Name} == {Name} && {Name} + {Phone} == {Name, Phone};
    assert {Name, Phone} + {Status} == ALL_VARIABLES;
  }

  lemma SafeValues(c: Client)
    requires SafeInOrder(c, [Name, Phone, Status])
    ensures forall v :: NoInstruction(Value(c, v))
    ensures forall v, w :: w in Earlier(v) ==> Inert(Value(c, w), Token(v))
  {
    var order := [Name, Phone, Status];
    assert SafeBefore(Value(c, order[0]), order[1..]) && SafeBefore(Value(c, order[1]), order[2..]);
    assert SafeBefore(Value(c, order[2]), order[3..]);
    assert Phone in order[1..] && Status in order[1..] && Status in order[2..];
  }

  // ---------------------------------------------------------------- bodies without nested braces

  lemma {:induction false} OpenSupplyIsLiteral(s: string, want: string, v: Variable)
    requires NoNestedBrace(s, true) && Supplies(s, want, v)
    requires want != "" && '{' !in want && '}' !in want[..|want| - 1]
    ensures want <= s
  {
    NoTokenYet(s, Name);
    NoTokenYet(s, Phone);
    assert s[0] == want[0];
    if |want| > 1 {
      assert want[0] in want[..|want| - 1];
      assert want[1..][..|want| - 2] == want[..|want| - 1][1..];
      OpenSupplyIsLiteral(s[1..], want[1..], v);
    }
    assert want == [want[0]] + want[1..] && s == [s[0]] + s[1..];
  }

  lemma NoTokenYet(s: string, v: Variable)
    requires NoNestedBrace(s, true)
    ensures !StartsWith(s, v)
  {
    TokenShape(v);
  }

  /** A body without nested braces is one of those that cannot join. */
  lemma UnnestedIsUnjoinable(body: string)
    requires NoNestedBrace(body, false)
    ensures !Joinable(body)
  {
    forall i, v | 0 <= i < |body| ensures !JoinsAt(body[i..], v) {
      NestedTail(body, false, i);
      UnnestedJoinsNot(body[i..], v);
    }
  }

  lemma UnnestedJoinsNot(s: string, v: Variable)
    requires NoNestedBrace(s, false)
    ensures !JoinsAt(s, v)
  {
    var want := Token(v)[1..];
    TokenShape(v);
    assert '{' !in want && '}' !in want[..|want| - 1] by { assert want[..|want| - 1] == Token(v)[1..|Token(v)| - 1]; }
    if s != "" && s[0] == '{' && Supplies(s[1..], want, v) {
      OpenSupplyIsLiteral(s[1..], want, v);
      assert Token(v) == [s[0]] + want && s == [s[0]] + s[1..];
    }
  }

  // ---------------------------------------------------------------- a body that can join

  /** How often a token occurs. */
  function Occurrences(s: string, token: string): nat {
    if s == "" then 0 else (if token <= s then 1 else 0) + Occurrences(s[1..], token)
  }

  lemma {:induction false} OccurrencesAfter(p: string, s: string, token: string)
    requires '{' !in p && token != "" && token[0] == '{'
    ensures Occurrences(p + s, token) == Occurrences(s, token)
  {
    if p == "" {
      assert p + s == s;
    } else {
      assert (p + s)[1..] == p[1..] + s && (p + s)[0] == p[0];
      OccurrencesAfter(p[1..], s, token);
    }
  }

  lemma OccurrencesAfterToken(w: Variable, s: string, v: Variable)
    ensures Occurrences(Token(w) + s, Token(v)) == Occurrences(s, Token(v)) + if v == w then 1 else 0
  {
    var t := Token(w);
    TokenShape(w);
    TokenShape(v);
    assert (t + s)[1..] == t[1..] + s;
    OccurrencesAfter(t[1..], s, Token(v));
    assert StartsWith(t + s, w);
    if StartsWith(t + s, v) { StartsOnce(t + s, v, w); }
  }

  /** Each occurrence replaced takes its opening brace away. */
  lemma {:induction false} BracesReplaced(s: string, v: Variable, value: string)
    requires '{' !in value
    ensures Count(ReplacePlain(s, Token(v), value), '{') == Count(s, '{') - Occurrences(s, Token(v))
    decreases |s|
  {
    var t := Token(v);
    TokenShape(v);
    if s == "" {
    } else if t <= s {
      var rest := s[|t|..];
      BracesReplaced(rest, v, value);
      assert s == t + rest;
      OccurrencesAfterToken(v, rest, v);
      CountConcat(value, ReplacePlain(rest, t, value), '{');
      CountAbsent(value, '{');
      CountConcat(t, rest, '{');
      CountToken(v);
    } else {
      BracesReplaced(s[1..], v, value);
      var rest := ReplacePlain(s[1..], t, value);
      assert ([s[0]] + rest)[1..] == rest;
    }
  }

  lemma CountToken(v: Variable)
    ensures Count(Token(v), '{') == 1
  {
    TokenShape(v);
    CountAbsent(Token(v)[1..], '{');
  }

  /** How many tokens there are in all. */
  function Tokens(s: string): nat {
    Occurrences(s, Token(Name)) + Occurrences(s, Token(Phone)) + Occurrences(s, Token(Status))
  }

  lemma TokensAfterToken(w: Variable, rest: string)
    ensures Tokens(Token(w) + rest) == Tokens(rest) + 1
  {
    OccurrencesAfterToken(w, rest, Name);
    OccurrencesAfterToken(w, rest, Phone);
    OccurrencesAfterToken(w, rest, Status);
  }

  lemma TokensAfterChar(s: string)
    requires s != "" && forall v :: !StartsWith(s, v)
    ensures Tokens(s) == Tokens(s[1..])
  {
    assert !StartsWith(s, Name) && !StartsWith(s, Phone) && !StartsWith(s, Status);
  }

  lemma BracesOfToken(w: Variable, rest: string, value: string, r: string)
    requires '{' !in value && Count(r, '{') == Count(rest, '{') - Tokens(rest)
    ensures Count(value + r, '{') == Count(Token(w) + rest, '{') - Tokens(Token(w) + rest)
  {
    TokensAfterToken(w, rest);
    CountConcat(value, r, '{');
    CountAbsent(value, '{');
    CountConcat(Token(w), rest, '{');
    CountToken(w);
  }

  lemma BracesOfChar(s: string, r: string)
    requires s != "" && forall v :: !StartsWith(s, v)
    requires Count(r, '{') == Count(s[1..], '{') - Tokens(s[1..])
    ensures Count([s[0]] + r, '{') == Count(s, '{') - Tokens(s)
  {
    TokensAfterChar(s);
    assert ([s[0]] + r)[1..] == r;
  }

  /** The simultaneous substitution takes the opening brace of every token away. */
  lemma {:induction false} BracesSubstituted(s: string, c: Client)
    requires forall v :: '{' !in Value(c, v)
    ensures Count(Substitute(s, c, ALL_VARIABLES), '{') == Count(s, '{') - Tokens(s)
    decreases |s|
  {
    if s != "" {
      if w :| StartsWith(s, w) {
        var rest := s[|Token(w)|..];
        assert s == Token(w) + rest;
        BracesSubstituted(rest, c);
        SubstitutedToken(rest, c, ALL_VARIABLES, w);
        BracesOfToken(w, rest, Value(c, w), Substitute(rest, c, ALL_VARIABLES));
      } else {
        BracesSubstituted(s[1..], c);
        BracesOfChar(s, Substitute(s[1..], c, ALL_VARIABLES));
      }
    }
  }

  lemma OccurrencesAcross(w: Variable, rest: string, value: string, v: Variable)
    requires '{' !in value && v != w
    ensures Occurrences(Token(w) + rest, Token(v)) == Occurrences(rest, Token(v))
    ensures Occurrences(ReplacePlain(Token(w) + rest, Token(w), value), Token(v))
      == Occurrences(ReplacePlain(rest, Token(w), value), Token(v))
  {
    var t := Token(w);
    TokenShape(v);
    TokenShape(w);
    OccurrencesAfterToken(w, rest, v);
    OccurrencesAfter(value, ReplacePlain(rest, t, value), Token(v));
    assert (t + rest)[|t|..] == rest;
  }

  /** Replacing one variable destroys no occurrence of another. */
  lemma {:induction false} OccurrencesSurvive(s: string, w: Variable, value: string, v: Variable)
    requires '{' !in value && v != w
    ensures Occurrences(ReplacePlain(s, Token(w), value), Token(v)) >= Occurrences(s, Token(v))
    decreases |s|
  {
    TokenShape(v);
    if s == "" {
    } else if StartsWith(s, w) {
      var rest := s[|Token(w)|..];
      OccurrencesSurvive(rest, w, value, v);
      assert s == Token(w) + rest;
      OccurrencesAcross(w, rest, value, v);
    } else {
      OccurrencesSurvive(s[1..], w, value, v);
      OccurrencesStep(s, w, value, v);
    }
  }

  /** One character on: it stays, and so does an occurrence that it begins. */
  lemma OccurrencesStep(s: string, w: Variable, value: string, v: Variable)
    requires s != "" && v != w && !StartsWith(s, w)
    ensures var r := ReplacePlain(s[1..], Token(w), value);
      && ReplacePlain(s, Token(w), value) == [s[0]] + r
      && Occurrences([s[0]] + r, Token(v)) == Occurrences(r, Token(v)) + (if StartsWith([s[0]] + r, v) then 1 else 0)
      && (StartsWith(s, v) ==> StartsWith([s[0]] + r, v))
  {
    var r := ReplacePlain(s[1..], Token(w), value);
    assert ([s[0]] + r)[1..] == r;
    if StartsWith(s, v) {
      var rest := s[|Token(v)|..];
      assert s == Token(v) + rest;
      TokenIsSkipped(rest, w, v, value);
    }
  }

  /** The brace at i begins v's token after the replace of w, and did not before. */
  predicate GainsAt(s: string, w: Variable, value: string, v: Variable, i: nat) {
    i < |s| && !StartsWith(s[i..], v) && StartsWith([s[i]] + ReplacePlain(s[i + 1..], Token(w), value), v)
  }

  lemma GainsLater(s: string, w: Variable, value: string, v: Variable, i: nat, k: nat)
    requires GainsAt(s, w, value, v, i) && k <= i
    ensures GainsAt(s[k..], w, value, v, i - k)
  {
    assert s[k..][i - k] == s[i] && s[k..][i - k..] == s[i..] && s[k..][i - k + 1..] == s[i + 1..];
  }

  predicate Gained(s: string, w: Variable, value: string, v: Variable) {
    Occurrences(ReplacePlain(s, Token(w), value), Token(v)) > Occurrences(s, Token(v))
  }

  lemma GainedHere(s: string, w: Variable, value: string, v: Variable)
    requires '{' !in value && v != w && GainsAt(s, w, value, v, 0)
    ensures Gained(s, w, value, v)
  {
    assert s[0..] == s;
    GainedElsewhere(s, w, value, v, 0);
    OccurrencesSurvive(s[1..], w, value, v);
    OccurrencesStep(s, w, value, v);
  }

  lemma GainedPastToken(s: string, w: Variable, value: string, v: Variable)
    requires '{' !in value && v != w && StartsWith(s, w) && Gained(s[|Token(w)|..], w, value, v)
    ensures Gained(s, w, value, v)
  {
    assert s == Token(w) + s[|Token(w)|..];
    OccurrencesAcross(w, s[|Token(w)|..], value, v);
  }

  lemma GainedPastChar(s: string, w: Variable, value: string, v: Variable)
    requires s != "" && v != w && !StartsWith(s, w) && Gained(s[1..], w, value, v)
    ensures Gained(s, w, value, v)
  {
    OccurrencesStep(s, w, value, v);
  }

  lemma {:induction false} OccurrenceGained(s: string, w: Variable, value: string, v: Variable, i: nat)
    requires '{' !in value && v != w && GainsAt(s, w, value, v, i)
    ensures Gained(s, w, value, v)
    decreases |s|
  {
    if i == 0 {
      GainedHere(s, w, value, v);
    } else if StartsWith(s, w) {
      var k := |Token(w)|;
      if i < k { GainNotInside(s, w, value, v, i); }
      GainsLater(s, w, value, v, i, k);
      OccurrenceGained(s[k..], w, value, v, i - k);
      GainedPastToken(s, w, value, v);
    } else {
      GainsLater(s, w, value, v, i, 1);
      OccurrenceGained(s[1..], w, value, v, i - 1);
      GainedPastChar(s, w, value, v);
    }
  }

  lemma GainNotInside(s: string, w: Variable, value: string, v: Variable, i: nat)
    requires StartsWith(s, w) && 0 < i < |Token(w)|
    ensures !GainsAt(s, w, value, v, i)
  {
    TokenInside(s, w, i);
    TokenShape(v);
  }

  /** The brace that gains v's token is not that of the token replaced. */
  lemma GainedElsewhere(s: string, w: Variable, value: string, v: Variable, i: nat)
    requires v != w && GainsAt(s, w, value, v, i)
    ensures !StartsWith(s[i..], w)
  {
    assert s[i..] == [s[i]] + s[i + 1..];
    assert ([s[i]] + ReplacePlain(s[i + 1..], Token(w), value))[1] == Token(v)[1];
    if StartsWith(s[i..], w) { SecondCharStays(s[i], s[i + 1..], w, value); }
  }

  lemma SecondCharStays(x: char, rest: string, w: Variable, value: string)
    requires StartsWith([x] + rest, w)
    ensures |ReplacePlain(rest, Token(w), value)| > 0 && ReplacePlain(rest, Token(w), value)[0] == Token(w)[1]
  {
    TokenShape(w);
    assert ([x] + rest)[1] == rest[0] == Token(w)[1] && Token(w)[1] in Token(w)[1..];
    assert rest == [rest[0]] + rest[1..];
    ReplaceCopies(rest[0], rest[1..], Token(w), value);
  }

  lemma TokenInside(s: string, w: Variable, i: nat)
    requires StartsWith(s, w) && 0 < i < |Token(w)|
    ensures s[i] != '{'
  {
    TokenShape(w);
    assert s[i] == Token(w)[1..][i - 1];
  }

  // ---------------------------------------------------------------- the client that shows it

  /** The name that supplies what is still wanted. */
  function Filling(s: string, want: string, v: Variable): string
    decreases |s|
  {
    if want == "" then ""
    else if StartsWith(s, Name) then want
    else if v == Status && StartsWith(s, Phone) then Filling(s[7..], want, v)
    else if s == "" then "" else Filling(s[1..], want[1..], v)
  }

  lemma {:induction false} FillingIsTame(s: string, want: string, v: Variable)
    requires Remainder(want, v)
    ensures Tame(Filling(s, want, v))
    decreases |s|
  {
    RemainderFacts(want, v);
    if want != "" && !StartsWith(s, Name) && s != "" {
      if v == Status && StartsWith(s, Phone) {
        FillingIsTame(s[7..], want, v);
      } else {
        FillingIsTame(s[1..], want[1..], v);
      }
    }
  }

  /** The body after the name, and after the phone if that comes before v, an empty one. */
  function Replaced(s: string, name: string, v: Variable): string {
    var one := ReplacePlain(s, Token(Name), name);
    if v == Status then ReplacePlain(one, Token(Phone), "") else one
  }

  lemma ReplacedChar(s: string, name: string, v: Variable)
    requires s != "" && s[0] != '{'
    ensures Replaced(s, name, v) == [s[0]] + Replaced(s[1..], name, v)
  {
    assert s == [s[0]] + s[1..];
    ReplaceCopies(s[0], s[1..], Token(Name), name);
    TokenShape(Phone);
    ReplaceCopies(s[0], ReplacePlain(s[1..], Token(Name), name), Token(Phone), "");
  }

  lemma ReplacedName(rest: string, name: string, v: Variable)
    requires '{' !in name
    ensures Replaced(Token(Name) + rest, name, v) == name + Replaced(rest, name, v)
  {
    var t := Token(Name);
    assert (t + rest)[|t|..] == rest;
    TameIsInert(name, Token(Phone));
    ReplaceSkips(name, ReplacePlain(rest, t, name), Token(Phone), "");
  }

  lemma ReplacedPhone(rest: string, name: string)
    ensures Replaced(Token(Phone) + rest, name, Status) == Replaced(rest, name, Status)
  {
    var t := Token(Phone);
    TokenIsSkipped(rest, Name, Phone, name);
    var r := ReplacePlain(rest, Token(Name), name);
    assert (t + r)[|t|..] == r;
  }

  lemma {:induction false} FillingSupplies(s: string, want: string, v: Variable)
    requires v != Name && Remainder(want, v) && Supplies(s, want, v)
    ensures want <= Replaced(s, Filling(s, want, v), v)
    decreases |s|
  {
    RemainderFacts(want, v);
    var name := Filling(s, want, v);
    if want == "" {
    } else if StartsWith(s, Name) {
      assert name == want && s == Token(Name) + s[6..];
      ReplacedName(s[6..], name, v);
    } else if v == Status && StartsWith(s, Phone) {
      assert s == Token(Phone) + s[7..];
      FillingSupplies(s[7..], want, v);
      ReplacedPhone(s[7..], name);
    } else {
      assert s[0] == want[0];
      FillingSupplies(s[1..], want[1..], v);
      CharSupplied(s, want, name, v);
    }
  }

  lemma CharSupplied(s: string, want: string, name: string, v: Variable)
    requires s != "" && want != "" && s[0] == want[0] && '{' !in want && want[1..] <= Replaced(s[1..], name, v)
    ensures want <= Replaced(s, name, v)
  {
    assert want[0] in want && want == [want[0]] + want[1..];
    ReplacedChar(s, name, v);
  }

  /** The brace stays where it is while the name is replaced; what is before it becomes something else. */
  lemma {:induction false} BraceStays(s: string, name: string, i: nat) returns (j: nat)
    requires i < |s| && s[i] == '{' && !StartsWith(s[i..], Name)
    ensures var one := ReplacePlain(s, Token(Name), name);
      j < |one| && one[j..] == [s[i]] + ReplacePlain(s[i + 1..], Token(Name), name)
    decreases |s|
  {
    if i == 0 {
      assert s[0..] == s;
      j := 0;
    } else if StartsWith(s, Name) {
      var rest := s[6..];
      if i < 6 { TokenInside(s, Name, i); }
      assert s[i..] == rest[i - 6..] && s[i + 1..] == rest[i - 5..];
      var k := BraceStays(rest, name, i - 6);
      j := |name| + k;
      SuffixAfter(name, ReplacePlain(rest, Token(Name), name), k);
    } else {
      assert s[i..] == s[1..][i - 1..] && s[i + 1..] == s[1..][i..];
      var k := BraceStays(s[1..], name, i - 1);
      j := 1 + k;
      SuffixAfter([s[0]], ReplacePlain(s[1..], Token(Name), name), k);
    }
  }

  lemma SuffixAfter(p: string, r: string, k: nat)
    requires k <= |r|
    ensures (p + r)[|p| + k..] == r[k..]
  {
  }

  predicate TameClient(c: Client) { Tame(c.name) && Tame(c.phone) && Tame(c.status) }

  lemma RenderedInSteps(body: string, c: Client)
    requires TameClient(c)
    ensures var one := ReplacePlain(body, Token(Name), Value(c, Name));
      var two := ReplacePlain(one, Token(Phone), Value(c, Phone));
      RenderTemplate(body, c) == ReplacePlain(two, Token(Status), Value(c, Status))
  {
    var one := ReplacePlain(body, Token(Name), Value(c, Name));
    var two := ReplacePlain(one, Token(Phone), Value(c, Phone));
    TameAll(body, Token(Name), Value(c, Name));
    TameAll(one, Token(Phone), Value(c, Phone));
    TameAll(two, Token(Status), Value(c, Status));
  }

  /** Rendering differs from the substitution if a replace finds more occurrences of its token than the body has. */
  lemma GainGoesWrong(body: string, c: Client)
    requires TameClient(c)
    requires var one := ReplacePlain(body, Token(Name), Value(c, Name));
      var two := ReplacePlain(one, Token(Phone), Value(c, Phone));
      Occurrences(one, Token(Phone)) + Occurrences(two, Token(Status))
        > Occurrences(body, Token(Phone)) + Occurrences(body, Token(Status))
    ensures RenderTemplate(body, c) != Substitute(body, c, ALL_VARIABLES)
  {
    var one := ReplacePlain(body, Token(Name), Value(c, Name));
    var two := ReplacePlain(one, Token(Phone), Value(c, Phone));
    RenderedInSteps(body, c);
    BracesReplaced(body, Name, Value(c, Name));
    BracesReplaced(one, Phone, Value(c, Phone));
    BracesReplaced(two, Status, Value(c, Status));
    BracesSubstituted(body, c);
  }

  lemma JoinedBrace(body: string, v: Variable, i: nat) returns (name: string)
    requires v != Name && i < |body| && JoinsAt(body[i..], v)
    ensures Tame(name) && body[i] == '{'
    ensures StartsWith([body[i]] + Replaced(body[i + 1..], name, v), v)
  {
    var rest, want := body[i + 1..], Token(v)[1..];
    assert body[i..][1..] == rest;
    RemainderOfToken(v);
    name := Filling(rest, want, v);
    FillingIsTame(rest, want, v);
    FillingSupplies(rest, want, v);
  }

  lemma JoinIsNoName(s: string, v: Variable)
    requires v != Name && JoinsAt(s, v)
    ensures !StartsWith(s, Name)
  {
    assert |s| > 1 ==> s[1..][0] == s[1];
    assert Token(v)[1..][0] == Token(v)[1];
  }

  lemma PhoneJoinGoesWrong(body: string, i: nat) returns (c: Client)
    requires i < |body| && JoinsAt(body[i..], Phone)
    ensures TameClient(c) && RenderTemplate(body, c) != Substitute(body, c, ALL_VARIABLES)
  {
    var name := JoinedBrace(body, Phone, i);
    c := Client(name, "", "");
    var one := ReplacePlain(body, Token(Name), name);
    OccurrenceGained(body, Name, name, Phone, i);
    OccurrencesSurvive(body, Name, name, Status);
    OccurrencesSurvive(one, Phone, "", Status);
    GainGoesWrong(body, c);
  }

  lemma StatusJoinGoesWrong(body: string, i: nat) returns (c: Client)
    requires i < |body| && JoinsAt(body[i..], Status)
    ensures TameClient(c) && RenderTemplate(body, c) != Substitute(body, c, ALL_VARIABLES)
  {
    var name := JoinedBrace(body, Status, i);
    c := Client(name, "", "");
    var one := ReplacePlain(body, Token(Name), name);
    var rest := ReplacePlain(body[i + 1..], Token(Name), name);
    OccurrencesSurvive(body, Name, name, Phone);
    if Token(Status) <= [body[i]] + rest {
      OccurrenceGained(body, Name, name, Status, i);
      OccurrencesSurvive(one, Phone, "", Status);
    } else {
      JoinIsNoName(body[i..], Status);
      var j := BraceStays(body, name, i);
      assert one[j..][0] == one[j] == body[i] && one[j..][1..] == one[j + 1..] == rest;
      OccurrencesSurvive(body, Name, name, Status);
      OccurrenceGained(one, Phone, "", Status, j);
    }
    GainGoesWrong(body, c);
  }

  lemma TameIsSafe(c: Client)
    requires TameClient(c)
    ensures SafeInOrder(c, [Name, Phone, Status])
  {
    var order := [Name, Phone, Status];
    forall i | 0 <= i < |order| ensures SafeBefore(Value(c, order[i]), order[i + 1..]) {
      BracelessIsSafe(Value(c, order[i]), order[i + 1..]);
    }
  }

  /**
   A body renders as one simultaneous substitution for every client with tame values, if and only if none of
   its braces can come to begin a token that it does not begin.
   */
  lemma BodyDecides(body: string)
    ensures (forall c :: TameClient(c) ==> RenderTemplate(body, c) == Substitute(body, c, ALL_VARIABLES))
      <==> !Joinable(body)
  {
    if !Joinable(body) {
      forall c | TameClient(c) ensures RenderTemplate(body, c) == Substitute(body, c, ALL_VARIABLES) {
        TameIsSafe(c);
        RenderIsSimultaneous(body, c);
      }
    } else {
      var i :| 0 <= i < |body| && (JoinsAt(body[i..], Phone) || JoinsAt(body[i..], Status));
      var c: Client;
      if JoinsAt(body[i..], Phone) { c := PhoneJoinGoesWrong(body, i); } else { c := StatusJoinGoesWrong(body, i); }
    }
  }

  // ---------------------------------------------------------------- piece by piece

  /** A body as its author thinks of it. */
  datatype Piece = Text(text: string) | NameHere | PhoneHere | StatusHere

  function Written(p: Piece): string {
    match p
    case Text(t) => t
    case NameHere => "{name}"
    case PhoneHere => "{phone}"
    case StatusHere => "{status}"
  }

  function Meant(p: Piece, c: Client): string {
    match p
    case Text(t) => t
    case NameHere => c.name
    case PhoneHere => if c.phone == "" then "" else "+" + c.phone
    case StatusHere => c.status
  }

  function BodyOf(ps: seq<Piece>): string { if ps == [] then "" else Written(ps[0]) + BodyOf(ps[1..]) }

  function MessageOf(ps: seq<Piece>, c: Client): string {
    if ps == [] then "" else Meant(ps[0], c) + MessageOf(ps[1..], c)
  }

  predicate NoBraceInTexts(ps: seq<Piece>) { forall p :: p in ps && p.Text? ==> '{' !in p.text }

  lemma {:induction false} TextBefore(t: string, s: string)
    requires '{' !in t && NoNestedBrace(s, false)
    ensures NoNestedBrace(t + s, false)
  {
    if t == "" {
      assert t + s == s;
    } else {
      assert (t + s)[1..] == t[1..] + s;
      TextBefore(t[1..], s);
    }
  }

  lemma {:induction false} WordBefore(w: string, s: string)
    requires w != "" && '{' !in w && w[|w| - 1] == '}' && NoNestedBrace(s, false)
    ensures NoNestedBrace(w + s, true)
  {
    assert (w + s)[1..] == w[1..] + s;
    if w[0] == '}' {
      TextBefore(w[1..], s);
    } else {
      WordBefore(w[1..], s);
    }
  }

  lemma TokenBefore(v: Variable, s: string)
    requires NoNestedBrace(s, false)
    ensures NoNestedBrace(Token(v) + s, false)
  {
    TokenShape(v);
    WordBefore(Token(v)[1..], s);
    assert (Token(v) + s)[1..] == Token(v)[1..] + s;
  }

  function VariableOf(p: Piece): Variable
    requires !p.Text?
  {
    match p
    case NameHere => Name
    case PhoneHere => Phone
    case StatusHere => Status
  }

  lemma {:induction false} PiecesSubstituted(ps: seq<Piece>, c: Client)
    requires NoBraceInTexts(ps)
    ensures NoNestedBrace(BodyOf(ps), false)
    ensures Substitute(BodyOf(ps), c, ALL_VARIABLES) == MessageOf(ps, c)
  {
    if ps != [] {
      var p, rest := ps[0], BodyOf(ps[1..]);
      PiecesSubstituted(ps[1..], c);
      assert p in ps;
      if p.Text? {
        TextBefore(p.text, rest);
        SubstituteSkips(p.text, rest, c, ALL_VARIABLES);
      } else {
        TokenBefore(VariableOf(p), rest);
        SubstitutedToken(rest, c, ALL_VARIABLES, VariableOf(p));
      }
    }
  }

  /** What is written with variables is sent with the client's name, phone in international form and status. */
  lemma RenderedPieceByPiece(ps: seq<Piece>, c: Client)
    requires NoBraceInTexts(ps) && TameClient(c)
    ensures RenderTemplate(BodyOf(ps), c) == MessageOf(ps, c)
  {
    PiecesSubstituted(ps, c);
    UnnestedIsUnjoinable(BodyOf(ps));
    TameIsSafe(c);
    RenderIsSimultaneous(BodyOf(ps), c);
  }
}
