/** The stored text of the account list: JSON.stringify of the list as the
    store writes it (ECMA-262 (2023) section 25.5.2.2 SerializeJSONProperty,
    with QuoteJSONString of section 25.5.2.3 for strings), and a parser of
    that text standing in for JSON.parse. Object members are written in the
    declaration order of src/types/account.ts. */
module Json {
  import opened Types

  /** What a parser returns: the value read and the text after it. */
  datatype Parsed<T> = Parsed(value: T, rest: string)

  // ----- Encoding -----

  /** Lower-case hexadecimal digit of `n`. */
  function HexDigit(n: nat): char
    requires n < 16
  {
    if n < 10 then ('0' as int + n) as char else ('a' as int + n - 10) as char
  }

  /** QuoteJSONString for one code point: the two-character escapes of its
      table, `\u00xx` for the other control characters, the character itself
      otherwise. */
  function EscapeChar(c: char): string {
    var n := c as int;
    if n == 0x08 then ['\\', 'b']
    else if n == 0x09 then ['\\', 't']
    else if n == 0x0A then ['\\', 'n']
    else if n == 0x0C then ['\\', 'f']
    else if n == 0x0D then ['\\', 'r']
    else if c == '"' then ['\\', '"']
    else if c == '\\' then ['\\', '\\']
    else if n < 0x20 then ['\\', 'u', '0', '0', HexDigit(n / 16), HexDigit(n % 16)]
    else [c]
  }

  function Escape(s: string): string {
    if s == [] then [] else EscapeChar(s[0]) + Escape(s[1..])
  }

  /** A JSON string literal. */
  function Quote(s: string): string {
    ['"'] + Escape(s) + ['"']
  }

  function EncodeLabel(l: Label): string {
    "{\"text\":" + Quote(l.text) + "}"
  }

  /** The elements of a JSON array, separated by commas. */
  function LabelItems(ls: seq<Label>): string
    requires ls != []
  {
    if |ls| == 1 then EncodeLabel(ls[0]) else EncodeLabel(ls[0]) + "," + LabelItems(ls[1..])
  }

  function EncodeLabels(ls: seq<Label>): string {
    if ls == [] then "[]" else "[" + LabelItems(ls) + "]"
  }

  function EncodeKind(t: AccountType): string {
    match t
    case LDAP => Quote("LDAP")
    case LOCAL => Quote("LOCAL")
  }

  function EncodePassword(p: Option<string>): string {
    match p
    case None => "null"
    case Some(s) => Quote(s)
  }

  /** An account object, its members in declaration order. The three tail
      functions below are the text after `labels`, after `type` and after
      `login`, matching the stages in which ParseAccount reads it back. */
  function EncodeAccount(a: Account): string {
    "{\"labels\":" + EncodeLabels(a.labels) + AfterLabelsText(a)
  }

  function AfterLabelsText(a: Account): string {
    ",\"type\":" + EncodeKind(a.kind) + AfterKindText(a)
  }

  function AfterKindText(a: Account): string {
    ",\"login\":" + Quote(a.login) + AfterLoginText(a)
  }

  function AfterLoginText(a: Account): string {
    ",\"password\":" + EncodePassword(a.password) + "}"
  }

  function AccountItems(xs: seq<Account>): string
    requires xs != []
  {
    if |xs| == 1 then EncodeAccount(xs[0]) else EncodeAccount(xs[0]) + "," + AccountItems(xs[1..])
  }

  /** JSON.stringify of the account list. */
  function Encode(xs: seq<Account>): string {
    if xs == [] then "[]" else "[" + AccountItems(xs) + "]"
  }

  // ----- Decoding -----

  /** The text after the literal `lit`, if the text starts with it. */
  function Expect(lit: string, s: string): (r: Option<string>)
    ensures r.Some? ==> |r.value| == |s| - |lit|
  {
    if lit == [] then Some(s)
    else if s != [] && s[0] == lit[0] then Expect(lit[1..], s[1..])
    else None
  }

  /** The value of one hexadecimal digit, either case. */
  function HexValue(c: char): Option<nat> {
    if '0' <= c <= '9' then Some(c as int - '0' as int)
    else if 'a' <= c <= 'f' then Some(c as int - 'a' as int + 10)
    else if 'A' <= c <= 'F' then Some(c as int - 'A' as int + 10)
    else None
  }

  /** The code point of four hexadecimal digits. */
  function HexQuad(s: string): Option<nat>
    requires |s| == 4
  {
    match (HexValue(s[0]), HexValue(s[1]), HexValue(s[2]), HexValue(s[3]))
    case (Some(a), Some(b), Some(c), Some(d)) => Some(((a * 16 + b) * 16 + c) * 16 + d)
    case _ => None
  }

  /** The character an escape sequence stands for, after its backslash. A
      `\u` escape of a surrogate code unit is refused. */
  function ParseEscape(s: string): (r: Option<Parsed<char>>)
    ensures r.Some? ==> |r.value.rest| < |s|
  {
    if s == [] then None
    else if s[0] == '"' then Some(Parsed('"', s[1..]))
    else if s[0] == '\\' then Some(Parsed('\\', s[1..]))
    else if s[0] == '/' then Some(Parsed('/', s[1..]))
    else if s[0] == 'b' then Some(Parsed(0x08 as char, s[1..]))
    else if s[0] == 'f' then Some(Parsed(0x0C as char, s[1..]))
    else if s[0] == 'n' then Some(Parsed(0x0A as char, s[1..]))
    else if s[0] == 'r' then Some(Parsed(0x0D as char, s[1..]))
    else if s[0] == 't' then Some(Parsed(0x09 as char, s[1..]))
    else if s[0] == 'u' && |s| >= 5 then
      match HexQuad(s[1..5])
      case Some(n) => if 0xD800 <= n < 0xE000 then None else Some(Parsed(n as char, s[5..]))
      case None => None
    else None
  }

  /** The characters of a string literal after its opening quote, up to and
      without its closing quote. */
  function ParseChars(s: string): (r: Option<Parsed<string>>)
    ensures r.Some? ==> |r.value.rest| < |s|
    decreases |s|
  {
    if s == [] then None
    else if s[0] == '"' then Some(Parsed([], s[1..]))
    else if s[0] == '\\' then
      match ParseEscape(s[1..])
      case None => None
      case Some(e) =>
        match ParseChars(e.rest)
        case None => None
        case Some(t) => Some(Parsed([e.value] + t.value, t.rest))
    else if (s[0] as int) < 0x20 then None
    else
      match ParseChars(s[1..])
      case None => None
      case Some(t) => Some(Parsed([s[0]] + t.value, t.rest))
  }

  function ParseString(s: string): (r: Option<Parsed<string>>)
    ensures r.Some? ==> |r.value.rest| < |s|
  {
    if s != [] && s[0] == '"' then ParseChars(s[1..]) else None
  }

  function ParseLabel(s: string): (r: Option<Parsed<Label>>)
    ensures r.Some? ==> |r.value.rest| < |s|
  {
    match Expect("{\"text\":", s)
    case None => None
    case Some(s1) =>
      match ParseString(s1)
      case None => None
      case Some(t) =>
        match Expect("}", t.rest)
        case None => None
        case Some(s2) => Some(Parsed(Label(t.value), s2))
  }

  /** Array elements after `[`, each followed by `,` or the closing `]`. */
  function ParseLabelItems(s: string): (r: Option<Parsed<seq<Label>>>)
    ensures r.Some? ==> |r.value.rest| < |s|
    decreases |s|
  {
    match ParseLabel(s)
    case None => None
    case Some(l) =>
      if l.rest != [] && l.rest[0] == ']' then Some(Parsed([l.value], l.rest[1..]))
      else if l.rest != [] && l.rest[0] == ',' then
        match ParseLabelItems(l.rest[1..])
        case None => None
        case Some(more) => Some(Parsed([l.value] + more.value, more.rest))
      else None
  }

  function ParseLabels(s: string): (r: Option<Parsed<seq<Label>>>)
    ensures r.Some? ==> |r.value.rest| < |s|
  {
    if |s| >= 2 && s[..2] == "[]" then Some(Parsed([], s[2..]))
    else if s != [] && s[0] == '[' then ParseLabelItems(s[1..])
    else None
  }

  function ParseKind(s: string): (r: Option<Parsed<AccountType>>)
    ensures r.Some? ==> |r.value.rest| < |s|
  {
    match ParseString(s)
    case None => None
    case Some(t) =>
      if t.value == "LDAP" then Some(Parsed(LDAP, t.rest))
      else if t.value == "LOCAL" then Some(Parsed(LOCAL, t.rest))
      else None
  }

  function ParsePassword(s: string): (r: Option<Parsed<Option<string>>>)
    ensures r.Some? ==> |r.value.rest| < |s|
  {
    match Expect("null", s)
    case Some(s1) => Some(Parsed(None, s1))
    case None =>
      match ParseString(s)
      case None => None
      case Some(t) => Some(Parsed(Some(t.value), t.rest))
  }

  /** An account object: its members in declaration order, read one after
      the other by the four functions below. */
  function ParseAccount(s: string): (r: Option<Parsed<Account>>)
    ensures r.Some? ==> |r.value.rest| < |s|
  {
    match Expect("{\"labels\":", s)
    case None => None
    case Some(s1) =>
      match ParseLabels(s1)
      case None => None
      case Some(ls) => ParseAfterLabels(ls.value, ls.rest)
  }

  function ParseAfterLabels(labels: seq<Label>, s: string): (r: Option<Parsed<Account>>)
    ensures r.Some? ==> |r.value.rest| < |s|
  {
    match Expect(",\"type\":", s)
    case None => None
    case Some(s1) =>
      match ParseKind(s1)
      case None => None
      case Some(k) => ParseAfterKind(labels, k.value, k.rest)
  }

  function ParseAfterKind(labels: seq<Label>, kind: AccountType, s: string): (r: Option<Parsed<Account>>)
    ensures r.Some? ==> |r.value.rest| < |s|
  {
    match Expect(",\"login\":", s)
    case None => None
    case Some(s1) =>
      match ParseString(s1)
      case None => None
      case Some(login) => ParseAfterLogin(labels, kind, login.value, login.rest)
  }

  function ParseAfterLogin(labels: seq<Label>, kind: AccountType, login: string, s: string): (r: Option<Parsed<Account>>)
    ensures r.Some? ==> |r.value.rest| < |s|
  {
    match Expect(",\"password\":", s)
    case None => None
    case Some(s1) =>
      match ParsePassword(s1)
      case None => None
      case Some(p) =>
        match Expect("}", p.rest)
        case None => None
        case Some(s2) => Some(Parsed(Account(labels, kind, login, p.value), s2))
  }

  function ParseAccountItems(s: string): (r: Option<Parsed<seq<Account>>>)
    ensures r.Some? ==> |r.value.rest| < |s|
    decreases |s|
  {
    match ParseAccount(s)
    case None => None
    case Some(a) =>
      if a.rest != [] && a.rest[0] == ']' then Some(Parsed([a.value], a.rest[1..]))
      else if a.rest != [] && a.rest[0] == ',' then
        match ParseAccountItems(a.rest[1..])
        case None => None
        case Some(more) => Some(Parsed([a.value] + more.value, more.rest))
      else None
  }

  function ParseAccounts(s: string): (r: Option<Parsed<seq<Account>>>)
    ensures r.Some? ==> |r.value.rest| < |s|
  {
    if |s| >= 2 && s[..2] == "[]" then Some(Parsed([], s[2..]))
    else if s != [] && s[0] == '[' then ParseAccountItems(s[1..])
    else None
  }

  /** JSON.parse of the stored text as an account list, read in the layout
      Encode writes: no white space between tokens, the members of each object
      in declaration order and no others, any JSON escape spelling inside
      strings. None where JSON.parse would throw and wherever the layout
      differs. */
  function Decode(s: string): Option<seq<Account>> {
    match ParseAccounts(s)
    case Some(p) => if p.rest == [] then Some(p.value) else None
    case None => None
  }

  // ----- Round trip -----

  /** A non-empty sequence is its head followed by its tail. */
  lemma HeadTail<T>(xs: seq<T>)
    requires xs != []
    ensures xs == [xs[0]] + xs[1..]
    ensures |xs| == 1 ==> xs == [xs[0]]
  {
  }

  /** Regrouping of concatenations, used to line the encoder's text up with
      the stages of the parser. */
  lemma Assoc(a: string, b: string, c: string)
    ensures a + b + c == a + (b + c)
  {
  }

  lemma Regroup(a: string, b: string, c: string, d: string)
    ensures (a + b) + c + d == a + (b + c + d)
  {
  }

  lemma {:induction false} ExpectLiteral(lit: string, rest: string)
    ensures Expect(lit, lit + rest) == Some(rest)
  {
    if lit != [] {
      assert lit + rest != [] && (lit + rest)[0] == lit[0];
      assert (lit + rest)[1..] == lit[1..] + rest;
      ExpectLiteral(lit[1..], rest);
      assert Expect(lit, lit + rest) == Expect(lit[1..], (lit + rest)[1..]);
    } else {
      assert lit + rest == rest;
    }
  }

  lemma HexDigitValue(n: nat)
    requires n < 16
    ensures HexValue(HexDigit(n)) == Some(n)
  {
  }

  /** A character written as itself reads back as itself. */
  lemma PlainCharRoundTrip(c: char, t: string, u: string, rest: string)
    requires c != '"' && c != '\\' && c as int >= 0x20
    requires ParseChars(t) == Some(Parsed(u, rest))
    ensures ParseChars([c] + t) == Some(Parsed([c] + u, rest))
  {
    assert ([c] + t)[0] == c && ([c] + t)[1..] == t;
  }

  /** A backslash and the escape `e` read back as `c`. */
  lemma ShortEscapeRoundTrip(c: char, e: string, t: string, u: string, rest: string)
    requires ParseEscape(e + t) == Some(Parsed(c, t))
    requires ParseChars(t) == Some(Parsed(u, rest))
    ensures ParseChars(['\\'] + e + t) == Some(Parsed([c] + u, rest))
  {
    var s := ['\\'] + e + t;
    assert s[0] == '\\' && s[1..] == e + t;
  }

  /** `\u00` and two hexadecimal digits read back as the control character
      they encode. */
  lemma UnicodeEscapeRead(n: nat, t: string)
    requires n < 0x20
    ensures ParseEscape(['u', '0', '0', HexDigit(n / 16), HexDigit(n % 16)] + t) == Some(Parsed(n as char, t))
  {
    var h1, h2 := HexDigit(n / 16), HexDigit(n % 16);
    var s1 := ['u', '0', '0', h1, h2] + t;
    assert s1[1..5] == ['0', '0', h1, h2];
    HexDigitValue(n / 16);
    HexDigitValue(n % 16);
    assert HexQuad(s1[1..5]) == Some(n);
    assert s1[5..] == t;
  }

  /** One escaped character, read back, is that character. */
  lemma EscapeCharRoundTrip(c: char, t: string, u: string, rest: string)
    requires ParseChars(t) == Some(Parsed(u, rest))
    ensures ParseChars(EscapeChar(c) + t) == Some(Parsed([c] + u, rest))
  {
    var n := c as int;
    var e := EscapeChar(c);
    if n == 0x08 || n == 0x09 || n == 0x0A || n == 0x0C || n == 0x0D || c == '"' || c == '\\' {
      assert e == ['\\'] + e[1..];
      assert ParseEscape(e[1..] + t) == Some(Parsed(c, t));
      ShortEscapeRoundTrip(c, e[1..], t, u, rest);
    } else if n < 0x20 {
      var e1 := ['u', '0', '0', HexDigit(n / 16), HexDigit(n % 16)];
      assert e == ['\\'] + e1;
      UnicodeEscapeRead(n, t);
      ShortEscapeRoundTrip(c, e1, t, u, rest);
    } else {
      assert e == [c];
      PlainCharRoundTrip(c, t, u, rest);
    }
  }

  /** The escaped characters of a string, then its closing quote, read back. */
  lemma {:induction false} EscapeRoundTrip(x: string, rest: string)
    ensures ParseChars(Escape(x) + ['"'] + rest) == Some(Parsed(x, rest))
  {
    if x == [] {
      assert Escape(x) + ['"'] + rest == ['"'] + rest;
    } else {
      var t := Escape(x[1..]) + ['"'] + rest;
      EscapeRoundTrip(x[1..], rest);
      EscapeCharRoundTrip(x[0], t, x[1..], rest);
      Regroup(EscapeChar(x[0]), Escape(x[1..]), ['"'], rest);
      HeadTail(x);
    }
  }

  /** A quoted string reads back as itself. */
  lemma QuoteRoundTrip(x: string, rest: string)
    ensures ParseString(Quote(x) + rest) == Some(Parsed(x, rest))
  {
    var s := Quote(x) + rest;
    assert s == ['"'] + (Escape(x) + ['"'] + rest);
    assert s[1..] == Escape(x) + ['"'] + rest;
    EscapeRoundTrip(x, rest);
  }

  lemma LabelRoundTrip(l: Label, rest: string)
    ensures ParseLabel(EncodeLabel(l) + rest) == Some(Parsed(l, rest))
  {
    var head := "{\"text\":";
    var s := EncodeLabel(l) + rest;
    assert s == head + (Quote(l.text) + ("}" + rest));
    ExpectLiteral(head, Quote(l.text) + ("}" + rest));
    QuoteRoundTrip(l.text, "}" + rest);
    ExpectLiteral("}", rest);
  }

  /** A non-empty array body between brackets: the parser sees the `[`,
      then an element start rather than the `]` of an empty array. */
  lemma Bracketed(items: string, rest: string)
    requires items != [] && items[0] == '{'
    ensures var s := "[" + items + "]" + rest;
      |s| >= 2 && s[..2] != "[]" && s[0] == '[' && s[1..] == items + "]" + rest
  {
    var s := "[" + items + "]" + rest;
    assert s[1] == '{';
  }

  lemma OneLabelText(ls: seq<Label>, rest: string)
    requires |ls| == 1
    ensures LabelItems(ls) + "]" + rest == EncodeLabel(ls[0]) + ("]" + rest)
  {
    Assoc(EncodeLabel(ls[0]), "]", rest);
  }

  lemma LabelItemsText(ls: seq<Label>, rest: string)
    requires |ls| > 1
    ensures LabelItems(ls) + "]" + rest == EncodeLabel(ls[0]) + ("," + (LabelItems(ls[1..]) + "]" + rest))
  {
    var e, m := EncodeLabel(ls[0]), LabelItems(ls[1..]);
    assert LabelItems(ls) == e + "," + m;
    Assoc(e + "," + m, "]", rest);
    Assoc(e + ",", m, "]" + rest);
    Assoc(e, ",", m + ("]" + rest));
    Assoc(m, "]", rest);
  }

  /** One step of ParseLabelItems, as a fact about any text it reads. */
  lemma LabelItemsLast(s: string, l: Label, rest: string)
    requires ParseLabel(s) == Some(Parsed(l, "]" + rest))
    ensures ParseLabelItems(s) == Some(Parsed([l], rest))
  {
    assert ("]" + rest)[0] == ']' && ("]" + rest)[1..] == rest;
  }

  lemma LabelItemsNext(s: string, l: Label, t: string, more: seq<Label>, rest: string)
    requires ParseLabel(s) == Some(Parsed(l, "," + t))
    requires ParseLabelItems(t) == Some(Parsed(more, rest))
    ensures ParseLabelItems(s) == Some(Parsed([l] + more, rest))
  {
    assert ("," + t)[0] == ',' && ("," + t)[1..] == t;
  }

  lemma LastLabel(l: Label, rest: string)
    ensures ParseLabelItems(EncodeLabel(l) + ("]" + rest)) == Some(Parsed([l], rest))
  {
    LabelRoundTrip(l, "]" + rest);
    LabelItemsLast(EncodeLabel(l) + ("]" + rest), l, rest);
  }

  lemma NextLabel(l: Label, tail: string, more: seq<Label>, rest: string)
    requires ParseLabelItems(tail) == Some(Parsed(more, rest))
    ensures ParseLabelItems(EncodeLabel(l) + ("," + tail)) == Some(Parsed([l] + more, rest))
  {
    LabelRoundTrip(l, "," + tail);
    LabelItemsNext(EncodeLabel(l) + ("," + tail), l, tail, more, rest);
  }

  lemma {:induction false} LabelItemsRoundTrip(ls: seq<Label>, rest: string)
    requires ls != []
    ensures ParseLabelItems(LabelItems(ls) + "]" + rest) == Some(Parsed(ls, rest))
    decreases |ls|
  {
    HeadTail(ls);
    if |ls| == 1 {
      OneLabelText(ls, rest);
      LastLabel(ls[0], rest);
    } else {
      LabelItemsText(ls, rest);
      LabelItemsRoundTrip(ls[1..], rest);
      NextLabel(ls[0], LabelItems(ls[1..]) + "]" + rest, ls[1..], rest);
    }
  }

  lemma LabelItemsStart(ls: seq<Label>)
    requires ls != []
    ensures LabelItems(ls)[0] == '{'
  {
  }

  lemma LabelsRoundTrip(ls: seq<Label>, rest: string)
    ensures ParseLabels(EncodeLabels(ls) + rest) == Some(Parsed(ls, rest))
  {
    if ls == [] {
      var s := EncodeLabels(ls) + rest;
      assert s[..2] == "[]" && s[2..] == rest;
    } else {
      LabelItemsStart(ls);
      Bracketed(LabelItems(ls), rest);
      LabelItemsRoundTrip(ls, rest);
    }
  }

  lemma KindRoundTrip(k: AccountType, rest: string)
    ensures ParseKind(EncodeKind(k) + rest) == Some(Parsed(k, rest))
  {
    match k
    case LDAP => QuoteRoundTrip("LDAP", rest);
    case LOCAL => QuoteRoundTrip("LOCAL", rest);
  }

  lemma PasswordRoundTrip(p: Option<string>, rest: string)
    ensures ParsePassword(EncodePassword(p) + rest) == Some(Parsed(p, rest))
  {
    match p
    case None => ExpectLiteral("null", rest);
    case Some(x) =>
      var s := Quote(x) + rest;
      assert s[0] == '"';
      assert Expect("null", s) == None;
      QuoteRoundTrip(x, rest);
  }

  lemma AfterLoginRoundTrip(a: Account, rest: string)
    ensures ParseAfterLogin(a.labels, a.kind, a.login, AfterLoginText(a) + rest) == Some(Parsed(a, rest))
  {
    var t := EncodePassword(a.password) + ("}" + rest);
    Assoc(",\"password\":" + EncodePassword(a.password), "}", rest);
    Assoc(",\"password\":", EncodePassword(a.password), "}" + rest);
    ExpectLiteral(",\"password\":", t);
    PasswordRoundTrip(a.password, "}" + rest);
    ExpectLiteral("}", rest);
  }

  lemma AfterKindRoundTrip(a: Account, rest: string)
    ensures ParseAfterKind(a.labels, a.kind, AfterKindText(a) + rest) == Some(Parsed(a, rest))
  {
    var t := Quote(a.login) + (AfterLoginText(a) + rest);
    Assoc(",\"login\":" + Quote(a.login), AfterLoginText(a), rest);
    Assoc(",\"login\":", Quote(a.login), AfterLoginText(a) + rest);
    ExpectLiteral(",\"login\":", t);
    QuoteRoundTrip(a.login, AfterLoginText(a) + rest);
    AfterLoginRoundTrip(a, rest);
  }

  lemma AfterLabelsRoundTrip(a: Account, rest: string)
    ensures ParseAfterLabels(a.labels, AfterLabelsText(a) + rest) == Some(Parsed(a, rest))
  {
    var t := EncodeKind(a.kind) + (AfterKindText(a) + rest);
    Assoc(",\"type\":" + EncodeKind(a.kind), AfterKindText(a), rest);
    Assoc(",\"type\":", EncodeKind(a.kind), AfterKindText(a) + rest);
    ExpectLiteral(",\"type\":", t);
    KindRoundTrip(a.kind, AfterKindText(a) + rest);
    AfterKindRoundTrip(a, rest);
  }

  lemma AccountRoundTrip(a: Account, rest: string)
    ensures ParseAccount(EncodeAccount(a) + rest) == Some(Parsed(a, rest))
  {
    var t := EncodeLabels(a.labels) + (AfterLabelsText(a) + rest);
    Assoc("{\"labels\":" + EncodeLabels(a.labels), AfterLabelsText(a), rest);
    Assoc("{\"labels\":", EncodeLabels(a.labels), AfterLabelsText(a) + rest);
    ExpectLiteral("{\"labels\":", t);
    LabelsRoundTrip(a.labels, AfterLabelsText(a) + rest);
    AfterLabelsRoundTrip(a, rest);
  }

  /** One step of ParseAccountItems, as a fact about any text it reads. */
  lemma AccountItemsLast(s: string, a: Account, rest: string)
    requires ParseAccount(s) == Some(Parsed(a, "]" + rest))
    ensures ParseAccountItems(s) == Some(Parsed([a], rest))
  {
    assert ("]" + rest)[0] == ']' && ("]" + rest)[1..] == rest;
  }

  lemma AccountItemsNext(s: string, a: Account, t: string, more: seq<Account>, rest: string)
    requires ParseAccount(s) == Some(Parsed(a, "," + t))
    requires ParseAccountItems(t) == Some(Parsed(more, rest))
    ensures ParseAccountItems(s) == Some(Parsed([a] + more, rest))
  {
    assert ("," + t)[0] == ',' && ("," + t)[1..] == t;
  }

  lemma OneAccountText(xs: seq<Account>, rest: string)
    requires |xs| == 1
    ensures AccountItems(xs) + "]" + rest == EncodeAccount(xs[0]) + ("]" + rest)
  {
    Assoc(EncodeAccount(xs[0]), "]", rest);
  }

  lemma AccountItemsText(xs: seq<Account>, rest: string)
    requires |xs| > 1
    ensures AccountItems(xs) + "]" + rest == EncodeAccount(xs[0]) + ("," + (AccountItems(xs[1..]) + "]" + rest))
  {
    var e, m := EncodeAccount(xs[0]), AccountItems(xs[1..]);
    assert AccountItems(xs) == e + "," + m;
    Assoc(e + "," + m, "]", rest);
    Assoc(e + ",", m, "]" + rest);
    Assoc(e, ",", m + ("]" + rest));
    Assoc(m, "]", rest);
  }

  lemma LastAccount(a: Account, rest: string)
    ensures ParseAccountItems(EncodeAccount(a) + ("]" + rest)) == Some(Parsed([a], rest))
  {
    AccountRoundTrip(a, "]" + rest);
    AccountItemsLast(EncodeAccount(a) + ("]" + rest), a, rest);
  }

  lemma NextAccount(a: Account, tail: string, more: seq<Account>, rest: string)
    requires ParseAccountItems(tail) == Some(Parsed(more, rest))
    ensures ParseAccountItems(EncodeAccount(a) + ("," + tail)) == Some(Parsed([a] + more, rest))
  {
    AccountRoundTrip(a, "," + tail);
    AccountItemsNext(EncodeAccount(a) + ("," + tail), a, tail, more, rest);
  }

  lemma {:induction false} AccountItemsRoundTrip(xs: seq<Account>, rest: string)
    requires xs != []
    ensures ParseAccountItems(AccountItems(xs) + "]" + rest) == Some(Parsed(xs, rest))
    decreases |xs|
  {
    HeadTail(xs);
    if |xs| == 1 {
      OneAccountText(xs, rest);
      LastAccount(xs[0], rest);
    } else {
      AccountItemsRoundTrip(xs[1..], rest);
      AccountItemsText(xs, rest);
      NextAccount(xs[0], AccountItems(xs[1..]) + "]" + rest, xs[1..], rest);
    }
  }

  lemma AccountItemsStart(xs: seq<Account>)
    requires xs != []
    ensures AccountItems(xs)[0] == '{'
  {
  }

  lemma AccountsRoundTrip(xs: seq<Account>)
    ensures ParseAccounts(Encode(xs)) == Some(Parsed(xs, []))
  {
    if xs == [] {
      var s := Encode(xs);
      assert s[..2] == "[]" && s[2..] == [];
    } else {
      AccountItemsStart(xs);
      Bracketed(AccountItems(xs), []);
      assert Encode(xs) == "[" + AccountItems(xs) + "]" + [];
      AccountItemsRoundTrip(xs, []);
    }
  }

  /** The stored text of a list reads back as exactly that list. */
  lemma DecodeEncode(xs: seq<Account>)
    ensures Decode(Encode(xs)) == Some(xs)
  {
    AccountsRoundTrip(xs);
  }

  /** Different lists are stored as different texts. */
  lemma EncodeInjective(xs: seq<Account>, ys: seq<Account>)
    requires Encode(xs) == Encode(ys)
    ensures xs == ys
  {
    DecodeEncode(xs);
    DecodeEncode(ys);
  }
}
