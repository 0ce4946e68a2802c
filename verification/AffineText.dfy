/** The text form of affine expressions: signed terms, their unique reading, and their exact meaning. */
module AffineText {
  import opened Machine
  import opened AffineTerms

  predicate Digit(c: char) {
    '0' <= c <= '9'
  }

  predicate IdentifierStart(c: char) {
    'a' <= c <= 'z' || 'A' <= c <= 'Z' || c == '_'
  }

  predicate IdentifierChar(c: char) {
    IdentifierStart(c) || Digit(c)
  }

  predicate SignChar(c: char) {
    c == '+' || c == '-'
  }

  predicate AllDigits(s: string) {
    forall i :: 0 <= i < |s| ==> Digit(s[i])
  }

  predicate Identifier(s: string) {
    s != "" && IdentifierStart(s[0]) && forall i :: 0 <= i < |s| ==> IdentifierChar(s[i])
  }

  // ----- terms

  /** One signed term of a sum: a constant, a name, or `digits*name`. */
  datatype Term = Term(sign: string, digits: string, name: string)

  predicate WellFormed(t: Term) {
    && (t.sign == "" || (|t.sign| == 1 && SignChar(t.sign[0])))
    && AllDigits(t.digits) && (t.name == "" || Identifier(t.name))
    && (t.digits != "" || t.name != "")
  }

  function BodyText(digits: string, name: string): string {
    digits + (if digits != "" && name != "" then "*" else "") + name
  }

  function TermText(t: Term): string {
    t.sign + BodyText(t.digits, t.name)
  }

  /** A sum of terms; only its first term may lack a sign. */
  predicate WellFormedSum(ts: seq<Term>) {
    forall i :: 0 <= i < |ts| ==> WellFormed(ts[i]) && (i > 0 ==> ts[i].sign != "")
  }

  function SumText(ts: seq<Term>): string {
    if ts == [] then "" else TermText(ts[0]) + SumText(ts[1..])
  }

  // ----- reading

  function TakeDigits(s: string): (n: nat)
    ensures n <= |s| && AllDigits(s[..n]) && (n < |s| ==> !Digit(s[n]))
  {
    if s == "" || !Digit(s[0]) then 0
    else
      var n := 1 + TakeDigits(s[1..]);
      assert s[..n] == [s[0]] + s[1..][..n - 1];
      n
  }

  function TakeName(s: string): (n: nat)
    ensures n <= |s| && (forall i :: 0 <= i < n ==> IdentifierChar(s[i])) && (n < |s| ==> !IdentifierChar(s[n]))
  {
    if s == "" || !IdentifierChar(s[0]) then 0 else 1 + TakeName(s[1..])
  }

  /** Read an identifier, with the text after it. */
  function ReadName(s: string): (r: Option<(string, string)>) {
    if s == "" || !IdentifierStart(s[0]) then None else Some((s[..TakeName(s)], s[TakeName(s)..]))
  }

  /** Read the unsigned part of a term: digits, a name, or digits, a star and a name. */
  function ReadBody(body: string): (r: Option<(string, string, string)>) {
    var n := TakeDigits(body);
    if n == 0 then
      match ReadName(body)
      case None => None
      case Some((name, rest)) => Some(("", name, rest))
    else if n == |body| || body[n] != '*' then Some((body[..n], "", body[n..]))
    else
      match ReadName(body[n + 1..])
      case None => None
      case Some((name, rest)) => Some((body[..n], name, rest))
  }

  /** Read one term from the front of a nonempty text, with the text after it. */
  function ReadTerm(s: string, first: bool): (r: Option<(Term, string)>)
    requires s != ""
  {
    if !SignChar(s[0]) && !first then None
    else
      var sign, body := if SignChar(s[0]) then s[..1] else "", if SignChar(s[0]) then s[1..] else s;
      match ReadBody(body)
      case None => None
      case Some((digits, name, rest)) => Some((Term(sign, digits, name), rest))
  }

  lemma ReadNameSound(s: string)
    requires ReadName(s).Some?
    ensures var (name, rest) := ReadName(s).value;
            Identifier(name) && s == name + rest && |rest| < |s|
  {
    var n := TakeName(s);
    assert IdentifierChar(s[0]);
    assert s == s[..n] + s[n..] && s[..n][0] == s[0];
  }

  lemma ReadBodySound(body: string)
    requires ReadBody(body).Some?
    ensures var (digits, name, rest) := ReadBody(body).value;
            && AllDigits(digits) && (name == "" || Identifier(name)) && (digits != "" || name != "")
            && body == BodyText(digits, name) + rest && |rest| < |body|
  {
    hide ReadName, Identifier, AllDigits;
    var n := TakeDigits(body);
    if n == 0 {
      ReadNameSound(body);
      assert body[..0] == "";
      var (name, rest) := ReadName(body).value;
      assert BodyText("", name) == name;
    } else if n == |body| || body[n] != '*' {
      assert BodyText(body[..n], "") == body[..n];
      assert body == body[..n] + body[n..];
    } else {
      var tail := body[n + 1..];
      ReadNameSound(tail);
      assert body == body[..n] + "*" + tail;
    }
  }

  /** What reading removes is the text of a well-formed term. */
  lemma ReadTermSound(s: string, first: bool)
    requires s != "" && ReadTerm(s, first).Some?
    ensures var (t, rest) := ReadTerm(s, first).value;
            WellFormed(t) && (!first ==> t.sign != "") && s == TermText(t) + rest && |rest| < |s|
  {
    hide ReadBody, Identifier, AllDigits;
    var body := if SignChar(s[0]) then s[1..] else s;
    ReadBodySound(body);
    assert SignChar(s[0]) ==> s == s[..1] + body;
  }

  /** A text that cannot continue a term. */
  predicate EndsTerm(rest: string) {
    rest == "" || SignChar(rest[0])
  }

  lemma {:induction false} TakeDigitsAll(d: string, rest: string)
    requires AllDigits(d) && (rest == "" || !Digit(rest[0]))
    ensures TakeDigits(d + rest) == |d|
  {
    if d == "" {
      assert d + rest == rest;
    } else {
      assert (d + rest)[1..] == d[1..] + rest;
      TakeDigitsAll(d[1..], rest);
    }
  }

  lemma {:induction false} TakeNameAll(name: string, rest: string)
    requires forall i :: 0 <= i < |name| ==> IdentifierChar(name[i])
    requires rest == "" || !IdentifierChar(rest[0])
    ensures TakeName(name + rest) == |name|
  {
    if name == "" {
      assert name + rest == rest;
    } else {
      assert (name + rest)[1..] == name[1..] + rest;
      TakeNameAll(name[1..], rest);
    }
  }

  lemma ReadNameComplete(name: string, rest: string)
    requires Identifier(name) && EndsTerm(rest)
    ensures ReadName(name + rest) == Some((name, rest))
    ensures (name + rest) != "" && !Digit((name + rest)[0])
  {
    TakeNameAll(name, rest);
    assert (name + rest)[..|name|] == name && (name + rest)[|name|..] == rest;
  }

  lemma ReadBodyComplete(digits: string, name: string, rest: string)
    requires AllDigits(digits) && (name == "" || Identifier(name)) && (digits != "" || name != "") && EndsTerm(rest)
    ensures ReadBody(BodyText(digits, name) + rest) == Some((digits, name, rest))
  {
    hide ReadName, Identifier, AllDigits;
    if name != "" {
      ReadNameComplete(name, rest);
    }
    if digits == "" {
      assert BodyText(digits, name) + rest == name + rest;
    } else if name == "" {
      assert BodyText(digits, name) + rest == digits + rest;
      TakeDigitsAll(digits, rest);
      assert (digits + rest)[..|digits|] == digits && (digits + rest)[|digits|..] == rest;
    } else {
      var tail := "*" + (name + rest);
      assert BodyText(digits, name) + rest == digits + tail;
      TakeDigitsAll(digits, tail);
      assert (digits + tail)[..|digits|] == digits && (digits + tail)[|digits| + 1..] == name + rest;
    }
  }

  lemma BodyStarts(digits: string, name: string, rest: string)
    requires AllDigits(digits) && (name == "" || Identifier(name)) && (digits != "" || name != "")
    ensures var body := BodyText(digits, name) + rest; body != "" && !SignChar(body[0])
  {
    assert BodyText(digits, name)[0] == if digits != "" then digits[0] else name[0];
  }

  /** The text of a well-formed term is read back as that term. */
  lemma ReadTermComplete(t: Term, rest: string, first: bool)
    requires WellFormed(t) && EndsTerm(rest) && (!first ==> t.sign != "")
    ensures TermText(t) != ""
    ensures ReadTerm(TermText(t) + rest, first) == Some((t, rest))
  {
    hide ReadBody, Identifier, AllDigits;
    ReadBodyComplete(t.digits, t.name, rest);
    BodyStarts(t.digits, t.name, rest);
    var body := BodyText(t.digits, t.name) + rest;
    hide BodyText;
    assert TermText(t) + rest == t.sign + body;
    assert t.sign == "" ==> t.sign + body == body;
    assert t.sign != "" ==> (t.sign + body)[..1] == t.sign && (t.sign + body)[1..] == body;
  }

  /** Read terms until the text is used up. */
  function ReadSum(s: string, first: bool): (r: Option<seq<Term>>)
    decreases |s|
  {
    if s == "" then Some([])
    else
      match ReadTerm(s, first)
      case None => None
      case Some((t, rest)) =>
        ReadTermSound(s, first);
        match ReadSum(rest, false)
        case None => None
        case Some(ts) => Some([t] + ts)
  }

  lemma {:induction false} ReadSumSound(s: string, first: bool)
    requires ReadSum(s, first).Some?
    ensures var ts := ReadSum(s, first).value;
            && SumText(ts) == s && WellFormedSum(ts) && (s != "" ==> ts != [])
            && (!first && ts != [] ==> ts[0].sign != "")
    decreases |s|
  {
    if s != "" {
      ReadTermSound(s, first);
      var (t, rest) := ReadTerm(s, first).value;
      ReadSumSound(rest, false);
      var ts := ReadSum(rest, false).value;
      assert ([t] + ts)[1..] == ts;
    }
  }

  lemma SumEndsTerm(ts: seq<Term>)
    requires WellFormedSum(ts) && (ts != [] ==> ts[0].sign != "")
    ensures EndsTerm(SumText(ts))
  {
    if ts != [] {
      assert SumText(ts)[0] == ts[0].sign[0];
    }
  }

  lemma {:induction false} ReadSumComplete(ts: seq<Term>, first: bool)
    requires WellFormedSum(ts) && (!first && ts != [] ==> ts[0].sign != "")
    ensures ReadSum(SumText(ts), first) == Some(ts)
  {
    if ts != [] {
      var rest := ts[1..];
      assert WellFormedSum(rest);
      SumEndsTerm(rest);
      ReadTermComplete(ts[0], SumText(rest), first);
      ReadSumComplete(rest, false);
      assert [ts[0]] + rest == ts;
    } else {
      assert ts == [];
    }
  }

  /** A text reads as a sum exactly when it is the text of a well-formed sum, and of only one. */
  lemma ReadingIsUnique(s: string, ts: seq<Term>)
    ensures ReadSum(s, true) == Some(ts) <==> SumText(ts) == s && WellFormedSum(ts)
  {
    if ReadSum(s, true) == Some(ts) {
      ReadSumSound(s, true);
    }
    if SumText(ts) == s && WellFormedSum(ts) {
      ReadSumComplete(ts, true);
    }
  }

  // ----- numbers

  function DigitValue(c: char): (v: nat)
    requires Digit(c)
    ensures v <= 9
  {
    c as int - '0' as int
  }

  function DecimalValue(s: string): (v: nat)
    requires AllDigits(s)
  {
    if s == "" then 0 else 10 * DecimalValue(s[..|s| - 1]) + DigitValue(s[|s| - 1])
  }

  /** Decimal digits of a natural, as `std::to_string` prints them: no leading zero. */
  function DecimalText(n: nat): (s: string)
    ensures s != "" && AllDigits(s) && DecimalValue(s) == n && (s[0] == '0' ==> s == "0")
  {
    var last := [('0' as int + n % 10) as char];
    if n < 10 then last
    else
      var s := DecimalText(n / 10) + last;
      assert s[..|s| - 1] == DecimalText(n / 10);
      s
  }

  lemma {:induction false} DecimalGrows(s: string, n: nat)
    requires AllDigits(s) && n <= |s|
    ensures DecimalValue(s[..n]) <= DecimalValue(s)
    decreases |s|
  {
    if n < |s| {
      assert s[..|s| - 1][..n] == s[..n];
      DecimalGrows(s[..|s| - 1], n);
    } else {
      assert s[..n] == s;
    }
  }

  // ----- meaning

  /** The integer factor of a term, before any limit. */
  function Factor(t: Term): (c: int)
    requires WellFormed(t)
  {
    var magnitude := if t.digits == "" then 1 else DecimalValue(t.digits);
    if t.sign == "-" then -magnitude else magnitude
  }

  /** The exact integer meaning of a sum in an environment. */
  ghost function Meaning(ts: seq<Term>, env: string -> int): (v: int)
    requires WellFormedSum(ts)
  {
    if ts == [] then 0
    else
      var last := ts[|ts| - 1];
      Meaning(ts[..|ts| - 1], env) + Factor(last) * (if last.name == "" then 1 else env(last.name))
  }

  function TermAffine(t: Term, coefficient: int): (e: Affine) {
    if t.name == "" then Affine(coefficient, map[]) else Affine(0, map[t.name := coefficient])
  }

  /** Add the terms one by one; the first coefficient or sum outside int64 fails. */
  ghost function Accumulate(ts: seq<Term>): (r: Option<Affine>)
    requires WellFormedSum(ts)
  {
    if ts == [] then Some(ZERO)
    else
      var last := ts[|ts| - 1];
      match Accumulate(ts[..|ts| - 1])
      case None => None
      case Some(e) => if IsI64(Factor(last)) then Added(e, TermAffine(last, Factor(last)), 1) else None
  }

  /** The expression a text denotes, if it has the grammar's form and stays within int64. */
  ghost function ParseAffine(text: string): (r: Option<Affine>) {
    if text == "" then None
    else
      match ReadSum(text, true)
      case None => None
      case Some(ts) => ReadSumSound(text, true); Accumulate(ts)
  }

  lemma {:induction false} AccumulateMeaning(ts: seq<Term>, env: string -> int)
    requires WellFormedSum(ts) && Accumulate(ts).Some?
    ensures Normal(Accumulate(ts).value) && Eval(Accumulate(ts).value, env) == Meaning(ts, env)
    ensures forall name :: name in Accumulate(ts).value.terms ==> Identifier(name)
  {
    if ts != [] {
      var front, last := ts[..|ts| - 1], ts[|ts| - 1];
      AccumulateMeaning(front, env);
      var e := Accumulate(front).value;
      var term := TermAffine(last, Factor(last));
      AddKeepsNormal(e, term, 1);
      AddEval(e, term, 1, env);
      TermEval(last, Factor(last), env);
    }
  }

  lemma TermEval(t: Term, c: int, env: string -> int)
    ensures Eval(TermAffine(t, c), env) == c * if t.name == "" then 1 else env(t.name)
  {
    if t.name != "" {
      var terms := map[t.name := c];
      SumRemove(terms, t.name, env);
      assert terms - {t.name} == map[];
    }
  }

  /**
   * Every successful parse is normalized over valid identifiers and has exactly the integer
   * meaning of the one sum that the text spells.
   */
  lemma ParseMeaning(text: string, env: string -> int)
    requires ParseAffine(text).Some?
    ensures ReadSum(text, true).Some? && WellFormedSum(ReadSum(text, true).value)
    ensures var e := ParseAffine(text).value;
            && Normal(e) && Eval(e, env) == Meaning(ReadSum(text, true).value, env)
            && forall name :: name in e.terms ==> Identifier(name)
  {
    ReadSumSound(text, true);
    AccumulateMeaning(ReadSum(text, true).value, env);
  }
}
