/** Placeholder substitution in stored message text (backend/src/utils/templating.py).

    The checker only counts braces and regex matches; what it guards is Python's
    str.format_map. Both are modelled here, independently of each other, and related
    through a third description: a template as a list of literal and {name} pieces. */
module Templating {
  import opened Options
  import Sequences
  import Text

  /** The Unicode classes the two sides consult: str.strip's white space, str.isdigit's
      digits and the decimal digits (with their values) that str.format reads as an index. */
  datatype CharTable = CharTable(space: set<char>, digit: set<char>, decimal: map<char, nat>) {
    predicate Valid() {
      && decimal.Keys <= digit
      && digit !! space
      && (forall c <- decimal.Keys :: decimal[c] < 10)
    }
  }

  // ---------------------------------------------------------------- the checker

  predicate IsBrace(c: char) { c == '{' || c == '}' }

  predicate BraceFree(s: string) { forall i | 0 <= i < |s| :: !IsBrace(s[i]) }

  function Count(c: char, s: string): nat {
    if s == "" then 0 else (if s[0] == c then 1 else 0) + Count(c, s[1..])
  }

  /** How far a name can reach: the longest brace-free prefix. */
  function NameLength(s: string): (n: nat)
    ensures n <= |s| && BraceFree(s[..n])
    ensures n < |s| ==> IsBrace(s[n])
  {
    if s == "" || IsBrace(s[0]) then 0
    else
      var n := NameLength(s[1..]);
      assert s[..n + 1] == [s[0]] + s[1..][..n];
      n + 1
  }

  /** The groups of the non-overlapping matches of \{([^{}]*)\}, left to right. */
  function RawPlaceholders(t: string): (names: seq<string>)
    ensures forall name <- names :: BraceFree(name)
  {
    if t == "" then []
    else
      var n := NameLength(t[1..]);
      if t[0] == '{' && n + 1 < |t| && t[n + 1] == '}' then
        [t[1..][..n]] + RawPlaceholders(t[n + 2..])
      else
        RawPlaceholders(t[1..])
  }

  function StripLeft(u: CharTable, s: string): string {
    if s != "" && s[0] in u.space then StripLeft(u, s[1..]) else s
  }

  function StripRight(u: CharTable, s: string): string {
    if s != "" && s[|s| - 1] in u.space then StripRight(u, s[..|s| - 1]) else s
  }

  function Strip(u: CharTable, s: string): string { StripRight(u, StripLeft(u, s)) }

  function PlaceholdersIn(u: CharTable, t: string): seq<string> {
    var raw := RawPlaceholders(t);
    seq(|raw|, i requires 0 <= i < |raw| => Strip(u, raw[i]))
  }

  predicate BraceError(u: CharTable, t: string) {
    || Count('{', t) != Count('}', t)
    || |PlaceholdersIn(u, t)| != Count('{', t)
  }

  predicate NotJustAKey(u: CharTable, name: string) {
    || name == ""
    || '.' in name || '[' in name || '!' in name || ':' in name
    || (forall c <- name :: c in u.digit)
  }

  predicate FieldAccessError(u: CharTable, t: string) {
    exists name <- PlaceholdersIn(u, t) :: NotJustAKey(u, name)
  }

  // ------------------------------------------------- templates as lists of pieces

  datatype Piece = Literal(text: string) | Field(name: string)

  predicate WellFormed(pieces: seq<Piece>) {
    forall p <- pieces :: BraceFree(if p.Literal? then p.text else p.name)
  }

  function Source(pieces: seq<Piece>): string {
    if pieces == [] then ""
    else
      (if pieces[0].Literal? then pieces[0].text else "{" + pieces[0].name + "}") + Source(pieces[1..])
  }

  function Names(pieces: seq<Piece>): seq<string> {
    if pieces == [] then []
    else (if pieces[0].Field? then [pieces[0].name] else []) + Names(pieces[1..])
  }

  lemma {:induction false} CountConcat(c: char, a: string, b: string)
    ensures Count(c, a + b) == Count(c, a) + Count(c, b)
  {
    if a == "" {
      assert a + b == b;
    } else {
      assert (a + b)[1..] == a[1..] + b;
      CountConcat(c, a[1..], b);
    }
  }

  lemma {:induction false} CountAbsent(c: char, s: string)
    requires c !in s
    ensures Count(c, s) == 0
  {
    if s != "" { CountAbsent(c, s[1..]); }
  }

  lemma {:induction false} NameLengthExact(name: string, rest: string)
    requires BraceFree(name)
    ensures NameLength(name + "}" + rest) == |name|
  {
    var s := name + "}" + rest;
    var n := NameLength(s);
    assert s[|name|] == '}';
    forall i | 0 <= i < |name| ensures !IsBrace(s[i]) { assert s[i] == name[i]; }
    forall i | 0 <= i < n ensures !IsBrace(s[i]) { assert s[i] == s[..n][i]; }
  }

  lemma {:induction false} PlaceholdersSkipLiteral(text: string, rest: string)
    requires BraceFree(text)
    ensures RawPlaceholders(text + rest) == RawPlaceholders(rest)
  {
    if text == "" {
      assert text + rest == rest;
    } else {
      assert (text + rest)[1..] == text[1..] + rest;
      PlaceholdersSkipLiteral(text[1..], rest);
    }
  }

  lemma PlaceholdersTakeField(name: string, rest: string)
    requires BraceFree(name)
    ensures RawPlaceholders("{" + name + "}" + rest) == [name] + RawPlaceholders(rest)
  {
    var t := "{" + name + "}" + rest;
    assert t[1..] == name + "}" + rest;
    NameLengthExact(name, rest);
    assert t[1..][..|name|] == name;
    assert t[|name| + 2..] == rest;
  }

  /** What the two counts and the regex see in a list of pieces. */
  lemma {:induction false} PiecesScan(pieces: seq<Piece>)
    requires WellFormed(pieces)
    ensures RawPlaceholders(Source(pieces)) == Names(pieces)
    ensures Count('{', Source(pieces)) == Count('}', Source(pieces)) == |Names(pieces)|
  {
    hide RawPlaceholders, Count, BraceFree;
    if pieces == [] {
      NothingThere();
    } else {
      var rest := Source(pieces[1..]);
      PiecesScan(pieces[1..]);
      match pieces[0]
      case Literal(text) =>
        PlaceholdersSkipLiteral(text, rest);
        LiteralCounts(text, rest);
      case Field(name) =>
        PlaceholdersTakeField(name, rest);
        FieldCounts(name, rest);
    }
  }

  lemma LiteralCounts(text: string, rest: string)
    requires BraceFree(text)
    ensures Count('{', text + rest) == Count('{', rest) && Count('}', text + rest) == Count('}', rest)
  {
    CountConcat('{', text, rest); CountConcat('}', text, rest);
    CountAbsent('{', text); CountAbsent('}', text);
  }

  lemma FieldCounts(name: string, rest: string)
    requires BraceFree(name)
    ensures Count('{', "{" + name + "}" + rest) == 1 + Count('{', rest)
    ensures Count('}', "{" + name + "}" + rest) == 1 + Count('}', rest)
  {
    CountAbsent('{', name); CountAbsent('}', name);
    forall c | IsBrace(c) ensures Count(c, "{" + name + "}" + rest) == 1 + Count(c, rest) {
      assert "{" + name + "}" + rest == "{" + (name + ("}" + rest));
      CountConcat(c, "{", name + ("}" + rest));
      CountConcat(c, name, "}" + rest);
      CountConcat(c, "}", rest);
    }
  }

  /** Where the regex matches at the front of a text, the text is that group and the rest. */
  predicate StartsWithGroup(t: string) {
    t != "" && t[0] == '{' && NameLength(t[1..]) + 1 < |t| && t[NameLength(t[1..]) + 1] == '}'
  }

  lemma FirstGroup(t: string) returns (name: string, rest: string)
    requires StartsWithGroup(t)
    ensures t == "{" + name + "}" + rest && BraceFree(name) && |rest| < |t|
    ensures RawPlaceholders(t) == [name] + RawPlaceholders(rest)
  {
    var n := NameLength(t[1..]);
    name, rest := t[1..][..n], t[n + 2..];
    assert t == "{" + name + "}" + rest;
  }

  lemma FirstCharacter(t: string)
    requires t != "" && !StartsWithGroup(t)
    ensures RawPlaceholders(t) == RawPlaceholders(t[1..])
    ensures forall c :: Count(c, t) == (if t[0] == c then 1 else 0) + Count(c, t[1..])
  {}

  /** The regex finds at most one match per brace of either kind, and when it finds one
      for every brace of both kinds the text splits into pieces. */
  lemma {:induction false} SplitIntoPieces(t: string) returns (pieces: seq<Piece>)
    ensures |RawPlaceholders(t)| <= Count('{', t) && |RawPlaceholders(t)| <= Count('}', t)
    ensures |RawPlaceholders(t)| == Count('{', t) == Count('}', t) ==> WellFormed(pieces) && Source(pieces) == t
    decreases |t|
  {
    hide NameLength, StartsWithGroup, RawPlaceholders, Count, BraceFree;
    pieces := [];
    if t == "" {
      NothingThere();
    } else if StartsWithGroup(t) {
      var name, rest := FirstGroup(t);
      FieldCounts(name, rest);
      var tail := SplitIntoPieces(rest);
      pieces := [Field(name)] + tail;
      assert pieces[1..] == tail;
    } else {
      FirstCharacter(t);
      var tail := SplitIntoPieces(t[1..]);
      pieces := [Literal(t[..1])] + tail;
      assert pieces[1..] == tail;
      assert t[..1] + t[1..] == t;
      if !IsBrace(t[0]) { OneCharacter(t); }
    }
  }

  /** And where no group starts it moves on by one character: with PlaceholdersTakeField this is
      all the scan does. */
  lemma RegexMovesOn(t: string)
    requires t != ""
    requires forall name, rest :: t == "{" + name + "}" + rest ==> !BraceFree(name)
    ensures RawPlaceholders(t) == RawPlaceholders(t[1..]) && RawPlaceholders("") == []
  {
    if StartsWithGroup(t) {
      var name, rest := FirstGroup(t);
      assert false;
    }
    FirstCharacter(t);
  }

  /** How often a character occurs. */
  lemma {:induction false} CountIs(c: char, s: string)
    ensures Count(c, s) == |set i | 0 <= i < |s| && s[i] == c|
    decreases |s|
  {
    if s != "" {
      var n := |s| - 1;
      CountIs(c, s[..n]);
      CountConcat(c, s[..n], [s[n]]);
      assert s == s[..n] + [s[n]] && [s[n]][1..] == "";
      Sequences.OneMoreIndex((set i | 0 <= i < |s[..n]| && s[..n][i] == c), (set i | 0 <= i < |s| && s[i] == c),
                             n, s[n] == c);
    }
  }

  lemma NothingThere()
    ensures RawPlaceholders("") == [] && forall c :: Count(c, "") == 0
  {}

  lemma OneCharacter(t: string)
    requires t != "" && !IsBrace(t[0])
    ensures BraceFree(t[..1])
  {}

  /** brace_error is exact: it is false for exactly the concatenations of brace-free
      literals and {name} groups. */
  lemma BraceErrorExact(u: CharTable, t: string)
    ensures !BraceError(u, t) <==> exists pieces :: WellFormed(pieces) && Source(pieces) == t
  {
    var split := SplitIntoPieces(t);
    if pieces :| WellFormed(pieces) && Source(pieces) == t {
      PiecesScan(pieces);
    }
  }

  /** strip takes white space off both ends, all of it and nothing else. */
  lemma StripExactly(u: CharTable, s: string) returns (before: string, after: string)
    ensures s == before + Strip(u, s) + after
    ensures (forall c <- before :: c in u.space) && (forall c <- after :: c in u.space)
    ensures var inner := Strip(u, s);
            inner != "" ==> inner[0] !in u.space && inner[|inner| - 1] !in u.space
  {
    var left := StripLeft(u, s);
    before := StripLeftExactly(u, s);
    after := StripRightExactly(u, left);
    assert s == before + (StripRight(u, left) + after);
    if StripRight(u, left) != "" { assert StripRight(u, left)[0] == left[0]; }
  }

  lemma {:induction false} StripLeftExactly(u: CharTable, s: string) returns (before: string)
    ensures s == before + StripLeft(u, s) && forall c <- before :: c in u.space
    ensures StripLeft(u, s) != "" ==> StripLeft(u, s)[0] !in u.space
  {
    before := "";
    if s != "" && s[0] in u.space {
      var more := StripLeftExactly(u, s[1..]);
      before := [s[0]] + more;
    }
  }

  lemma {:induction false} StripRightExactly(u: CharTable, s: string) returns (after: string)
    ensures s == StripRight(u, s) + after && forall c <- after :: c in u.space
    ensures StripRight(u, s) != "" ==> StripRight(u, s)[|StripRight(u, s)| - 1] !in u.space
    decreases |s|
  {
    after := "";
    if s != "" && s[|s| - 1] in u.space {
      var n := |s| - 1;
      var more := StripRightExactly(u, s[..n]);
      after := more + [s[n]];
      assert s == s[..n] + [s[n]];
      assert s == StripRight(u, s[..n]) + (more + [s[n]]);
    }
  }

  // ------------------------------------------------------------ str.format_map

  /** Raised: one of the exceptions safe_format catches. Beyond: the field converts, formats,
      or reaches an attribute or element of a value (or breaks while parsing that); what
      Python does with it is not modelled, and it may raise what safe_format does not catch:
      a width taken from a value can exhaust memory. */
  datatype Outcome = Rendered(text: string) | Raised | Beyond

  function Prepend(s: string, o: Outcome): Outcome {
    if o.Rendered? then Rendered(s + o.text) else o
  }

  /** The rest is only rendered when the first part was. */
  function Join(first: Outcome, rest: Outcome): Outcome {
    if first.Rendered? then Prepend(first.text, rest) else first
  }

  /** The largest index Python holds in a Py_ssize_t. */
  const MAX_INDEX: nat := 0x7fff_ffff_ffff_ffff

  datatype Index = Key | Positional | TooManyDigits

  /** str.format's reading of a field name as an index: digit by digit, and the overflow
      test comes before it knows whether the name is a number at all. */
  function ReadIndex(u: CharTable, name: string, acc: nat := 0): Index {
    if name == "" then Positional
    else if name[0] !in u.decimal then Key
    else if acc * 10 + u.decimal[name[0]] > MAX_INDEX then TooManyDigits
    else ReadIndex(u, name[1..], acc * 10 + u.decimal[name[0]])
  }

  /** Where a field name stops: at the first of { [ } : ! , or |s| when none is left. */
  function FieldStop(s: string): (n: nat)
    ensures n <= |s|
    ensures n < |s| ==> s[n] in "{[}:!"
    ensures forall i | 0 <= i < n :: s[i] !in "{[}:!"
  {
    if s == "" || s[0] in "{[}:!" then 0
    else
      FieldStop(s[1..]) + 1
  }

  /** SafeTemplateValues: a missing key renders as a visible marker. */
  function Lookup(values: map<string, string>, key: string): string {
    if key in values then values[key] else "[" + key + "?]"
  }

  function FieldText(u: CharTable, values: map<string, string>, name: string): Outcome {
    if '.' in name then Beyond
    else if name == "" then Raised
    else if ReadIndex(u, name).Key? then Rendered(Lookup(values, name))
    else Raised
  }

  function FormatMap(u: CharTable, t: string, values: map<string, string>): Outcome {
    if t == "" then Rendered("")
    else if !IsBrace(t[0]) then Prepend(t[..1], FormatMap(u, t[1..], values))
    else if |t| == 1 then Raised
    else if t[1] == t[0] then Prepend(t[..1], FormatMap(u, t[2..], values))
    else if t[0] == '}' then Raised
    else
      var n := FieldStop(t[1..]);
      if n + 1 == |t| || t[n + 1] == '{' then Raised
      else if t[n + 1] != '}' then Beyond
      else Join(FieldText(u, values, t[1..][..n]), FormatMap(u, t[n + 2..], values))
  }

  /** Where a field does not end in a brace. A name followed by [ : or ! leaves the plain keys; one
      followed by another brace, or by nothing, raises. */
  lemma FieldStops(u: CharTable, name: string, c: char, rest: string, values: map<string, string>)
    requires forall d <- name :: d !in "{[}:!"
    ensures c == '[' || c == ':' || c == '!' ==> FormatMap(u, "{" + name + [c] + rest, values).Beyond?
    ensures c == '{' && name != "" ==> FormatMap(u, "{" + name + [c] + rest, values).Raised?
    ensures FormatMap(u, "{" + name, values).Raised?
  {
    if c in "[:!{" { StopIs(name, c, rest); }
    StopAtEnd(name);
    var t := "{" + name + [c] + rest;
    assert t[1..] == name + [c] + rest && t[|name| + 1] == c;
    var end := "{" + name;
    assert end[1..] == name;
    if name != "" { assert t[1] == name[0] && end[1] == name[0] && name[0] in name; }
  }

  lemma StopIs(name: string, c: char, rest: string)
    requires (forall d <- name :: d !in "{[}:!") && c in "{[}:!"
    ensures FieldStop(name + [c] + rest) == |name|
  {
    var s := name + [c] + rest;
    assert s[|name|] == c;
    forall i | 0 <= i < |name| ensures s[i] !in "{[}:!" { assert s[i] == name[i] && name[i] in name; }
  }

  lemma StopAtEnd(name: string)
    requires forall d <- name :: d !in "{[}:!"
    ensures FieldStop(name) == |name|
  {
    forall i | 0 <= i < |name| ensures name[i] !in "{[}:!" { assert name[i] in name; }
  }

  /** And where it ends in one: nothing in it, or only decimal digits, raises; a dot leaves the
      plain keys. */
  lemma FieldEnds(u: CharTable, name: string, rest: string, values: map<string, string>)
    requires forall d <- name :: d !in "{[}:!"
    ensures '.' in name ==> FormatMap(u, "{" + name + "}" + rest, values).Beyond?
    ensures name == "" ==> FormatMap(u, "{" + name + "}" + rest, values).Raised?
    ensures '.' !in name && (forall d <- name :: d in u.decimal) ==>
            FormatMap(u, "{" + name + "}" + rest, values).Raised?
  {
    StopIs(name, '}', rest);
    var t := "{" + name + "}" + rest;
    assert t[1..] == name + "}" + rest && t[|name| + 1] == '}' && t[1..][..|name|] == name;
    if name != "" { assert t[1] == name[0] && name[0] in name; }
    if forall d <- name :: d in u.decimal { AllDecimalIsNoKey(u, name, 0); }
  }

  lemma {:induction false} AllDecimalIsNoKey(u: CharTable, name: string, acc: nat)
    requires forall d <- name :: d in u.decimal
    ensures !ReadIndex(u, name, acc).Key?
  {
    if name != "" && acc * 10 + u.decimal[name[0]] <= MAX_INDEX {
      AllDecimalIsNoKey(u, name[1..], acc * 10 + u.decimal[name[0]]);
    }
  }

  /** What str.format's scan makes of a text, piece by piece up to its end or the first
      piece it cannot go on from. Special: a field that stops at [ : or !. */
  datatype Token = Plain(text: string) | Name(name: string) | Special | Broken

  function Tokens(t: string): seq<Token> {
    if t == "" then []
    else if !IsBrace(t[0]) then [Plain(t[..1])] + Tokens(t[1..])
    else if |t| == 1 then [Broken]
    else if t[1] == t[0] then [Plain(t[..1])] + Tokens(t[2..])
    else if t[0] == '}' then [Broken]
    else
      var n := FieldStop(t[1..]);
      if n + 1 == |t| || t[n + 1] == '{' then [Broken]
      else if t[n + 1] != '}' then [Special]
      else [Name(t[1..][..n])] + Tokens(t[n + 2..])
  }

  /** A piece that is rendered: text, or a name read as a key. */
  predicate Renders(u: CharTable, k: Token) {
    k.Plain? || (k.Name? && '.' !in k.name && k.name != "" && ReadIndex(u, k.name).Key?)
  }

  predicate AllRender(u: CharTable, tokens: seq<Token>) { forall k <- tokens :: Renders(u, k) }

  predicate GoesBeyond(k: Token) { k.Special? || (k.Name? && '.' in k.name) }

  /** The first piece that does not render decides: it goes beyond, or it raises. */
  predicate StopsBeyond(u: CharTable, tokens: seq<Token>) {
    exists k | 0 <= k < |tokens| :: StopsAt(u, tokens, k)
  }

  predicate StopsAt(u: CharTable, tokens: seq<Token>, k: nat)
    requires k < |tokens|
  {
    GoesBeyond(tokens[k]) && forall j | 0 <= j < k :: Renders(u, tokens[j])
  }

  /** format_map goes beyond exactly when, before anything that raises, the scan meets a
      field that stops at [ : or !, or a name with a dot; and it renders exactly when every
      piece does. The values play no part in it. */
  lemma {:induction false} FormatMapStops(u: CharTable, t: string, values: map<string, string>)
    ensures FormatMap(u, t, values).Beyond? <==> StopsBeyond(u, Tokens(t))
    ensures FormatMap(u, t, values).Rendered? <==> AllRender(u, Tokens(t))
    decreases |t|
  {
    hide Renders, GoesBeyond, StopsBeyond, AllRender, FieldText;
    if t == "" {
      NothingStops(u);
    } else if !IsBrace(t[0]) {
      FormatMapStops(u, t[1..], values);
      FirstTokenDecides(u, values, Plain(t[..1]), Tokens(t[1..]), FormatMap(u, t[1..], values));
    } else if |t| == 1 || (t[0] == '}' && t[1] != t[0]) {
      LastToken(u, values, Broken);
    } else if t[1] == t[0] {
      FormatMapStops(u, t[2..], values);
      FirstTokenDecides(u, values, Plain(t[..1]), Tokens(t[2..]), FormatMap(u, t[2..], values));
    } else {
      var n := FieldStop(t[1..]);
      if n + 1 == |t| || t[n + 1] == '{' {
        LastToken(u, values, Broken);
      } else if t[n + 1] != '}' {
        LastToken(u, values, Special);
      } else {
        FormatMapStops(u, t[n + 2..], values);
        FirstTokenDecides(u, values, Name(t[1..][..n]), Tokens(t[n + 2..]), FormatMap(u, t[n + 2..], values));
      }
    }
  }

  /** What one piece comes to. */
  function Meaning(u: CharTable, values: map<string, string>, k: Token): Outcome {
    match k
    case Plain(text) => Rendered(text)
    case Name(name) => FieldText(u, values, name)
    case Special => Beyond
    case Broken => Raised
  }

  lemma MeaningOf(u: CharTable, values: map<string, string>, k: Token)
    ensures Meaning(u, values, k).Beyond? <==> GoesBeyond(k)
    ensures Meaning(u, values, k).Rendered? <==> Renders(u, k)
  {
    hide ReadIndex, Lookup;
  }

  lemma NothingStops(u: CharTable)
    ensures !StopsBeyond(u, []) && AllRender(u, [])
  {}

  lemma LastToken(u: CharTable, values: map<string, string>, k: Token)
    requires k.Broken? || k.Special?
    ensures StopsBeyond(u, [k]) <==> k.Special?
    ensures !AllRender(u, [k])
  {
    assert [k] == [k] + [];
    FirstToken(u, k, []);
  }

  lemma FirstTokenDecides(u: CharTable, values: map<string, string>, first: Token, rest: seq<Token>, tail: Outcome)
    requires tail.Beyond? <==> StopsBeyond(u, rest)
    requires tail.Rendered? <==> AllRender(u, rest)
    ensures Join(Meaning(u, values, first), tail).Beyond? <==> StopsBeyond(u, [first] + rest)
    ensures Join(Meaning(u, values, first), tail).Rendered? <==> AllRender(u, [first] + rest)
  {
    hide Meaning, GoesBeyond, Renders, StopsBeyond, AllRender;
    MeaningOf(u, values, first);
    NotBoth(u, first);
    FirstToken(u, first, rest);
  }

  lemma NotBoth(u: CharTable, k: Token)
    ensures !(GoesBeyond(k) && Renders(u, k))
  {}

  lemma FirstToken(u: CharTable, first: Token, rest: seq<Token>)
    ensures StopsBeyond(u, [first] + rest) <==> GoesBeyond(first) || (Renders(u, first) && StopsBeyond(u, rest))
    ensures AllRender(u, [first] + rest) <==> Renders(u, first) && AllRender(u, rest)
  {
    hide Renders, GoesBeyond;
    var all := [first] + rest;
    if GoesBeyond(first) { assert StopsAt(u, all, 0); }
    if Renders(u, first) {
      forall k | 0 <= k < |rest| ensures StopsAt(u, all, k + 1) <==> StopsAt(u, rest, k) {
        forall j | 0 <= j <= k ensures rest[j] == all[j + 1] {}
      }
    }
    forall k | 0 < k < |all| && StopsAt(u, all, k) ensures Renders(u, first) && StopsAt(u, rest, k - 1) {
      assert Renders(u, all[0]);
      forall j | 0 <= j < k ensures rest[j] == all[j + 1] {}
    }
  }

  // --------------------------------------- what a checked template renders to

  function Substitute(pieces: seq<Piece>, values: map<string, string>): string {
    if pieces == [] then ""
    else
      (if pieces[0].Literal? then pieces[0].text else Lookup(values, pieces[0].name)) + Substitute(pieces[1..], values)
  }

  predicate AllDecimal(u: CharTable, s: string) { forall i | 0 <= i < |s| :: s[i] in u.decimal }

  function DecimalValue(u: CharTable, s: string): nat
    requires AllDecimal(u, s)
  {
    if s == "" then 0
    else DecimalValue(u, s[..|s| - 1]) * 10 + u.decimal[s[|s| - 1]]
  }

  /** The name starts with a number too large for an index. */
  predicate HugeNumber(u: CharTable, name: string) {
    exists k | 0 <= k <= |name| ::
      && AllDecimal(u, name[..k])
      && DecimalValue(u, name[..k]) > MAX_INDEX
  }

  lemma {:induction false} DecimalGrows(u: CharTable, s: string, t: string)
    requires AllDecimal(u, s) && AllDecimal(u, s + t)
    ensures DecimalValue(u, s + t) >= DecimalValue(u, s)
    decreases |t|
  {
    if t == "" {
      assert s + t == s;
    } else {
      var st, init := s + t, t[..|t| - 1];
      assert st[..|st| - 1] == s + init;
      DecimalGrows(u, s, init);
    }
  }

  lemma OverflowAt(u: CharTable, s: string, rest: string)
    requires AllDecimal(u, s) && DecimalValue(u, s) > MAX_INDEX
    ensures HugeNumber(u, s + rest)
  {
    assert (s + rest)[..|s|] == s;
  }

  lemma NoOverflow(u: CharTable, done: string, name: string)
    requires AllDecimal(u, done) && DecimalValue(u, done) <= MAX_INDEX
    requires name == "" || name[0] !in u.decimal
    ensures !HugeNumber(u, done + name)
  {
    hide DecimalValue;
    var whole := done + name;
    forall k | 0 <= k <= |whole| && AllDecimal(u, whole[..k]) ensures DecimalValue(u, whole[..k]) <= MAX_INDEX {
      forall i | 0 <= i < k ensures whole[i] in u.decimal { assert whole[i] == whole[..k][i]; }
      assert name != "" ==> whole[|done|] == name[0];
      assert done == whole[..k] + done[k..];
      DecimalGrows(u, whole[..k], done[k..]);
    }
  }

  lemma OneMoreDigit(u: CharTable, s: string, c: char)
    requires AllDecimal(u, s) && c in u.decimal
    ensures AllDecimal(u, s + [c]) && DecimalValue(u, s + [c]) == DecimalValue(u, s) * 10 + u.decimal[c]
  {
    assert (s + [c])[..|s|] == s;
  }

  lemma {:induction false} ReadIndexOverflow(u: CharTable, done: string, name: string)
    requires AllDecimal(u, done) && DecimalValue(u, done) <= MAX_INDEX
    ensures ReadIndex(u, name, DecimalValue(u, done)).TooManyDigits? <==> HugeNumber(u, done + name)
    decreases |name|
  {
    hide DecimalValue, AllDecimal, HugeNumber;
    if name == "" || name[0] !in u.decimal {
      NoOverflow(u, done, name);
    } else {
      var more := done + [name[0]];
      OneMoreDigit(u, done, name[0]);
      assert more + name[1..] == done + name;
      if DecimalValue(u, more) <= MAX_INDEX {
        ReadIndexOverflow(u, more, name[1..]);
      } else {
        OverflowAt(u, more, name[1..]);
      }
    }
  }

  /** A name is read as a key unless it is empty, all decimal digits, or starts with a
      number past the index range. */
  lemma {:induction false} ReadIndexPositional(u: CharTable, name: string, acc: nat)
    ensures ReadIndex(u, name, acc).Positional? ==> forall c <- name :: c in u.decimal
  {
    if name != "" && name[0] in u.decimal && acc * 10 + u.decimal[name[0]] <= MAX_INDEX {
      ReadIndexPositional(u, name[1..], acc * 10 + u.decimal[name[0]]);
      if ReadIndex(u, name, acc).Positional? {
        forall c <- name ensures c in u.decimal {
          assert name == [name[0]] + name[1..];
        }
      }
    }
  }

  lemma {:induction false} StripKeeps(u: CharTable, s: string)
    ensures forall c <- Strip(u, s) :: c in s
    ensures forall c <- s :: c in Strip(u, s) || c in u.space
  {
    StripLeftKeeps(u, s);
    StripRightKeeps(u, StripLeft(u, s));
  }

  lemma {:induction false} StripLeftKeeps(u: CharTable, s: string)
    ensures forall c <- StripLeft(u, s) :: c in s
    ensures forall c <- s :: c in StripLeft(u, s) || c in u.space
  {
    if s != "" && s[0] in u.space { StripLeftKeeps(u, s[1..]); }
  }

  lemma {:induction false} StripRightKeeps(u: CharTable, s: string)
    ensures forall c <- StripRight(u, s) :: c in s
    ensures forall c <- s :: c in StripRight(u, s) || c in u.space
    decreases |s|
  {
    if s != "" && s[|s| - 1] in u.space {
      StripRightKeeps(u, s[..|s| - 1]);
      forall c <- s ensures c in StripRight(u, s) || c in u.space {
        assert s == s[..|s| - 1] + [s[|s| - 1]];
      }
    }
  }

  predicate SpecialFree(u: CharTable) {
    forall c <- ".[!:" :: c !in u.space
  }

  /** A raw name whose stripped form passes field_access_error is a plain key for
      str.format, unless it starts with a huge number. */
  lemma AcceptedName(u: CharTable, values: map<string, string>, name: string)
    requires u.Valid() && SpecialFree(u)
    requires !NotJustAKey(u, Strip(u, name))
    ensures '[' !in name && ':' !in name && '!' !in name
    ensures FieldText(u, values, name) ==
            if HugeNumber(u, name) then Raised else Rendered(Lookup(values, name))
  {
    StripKeeps(u, name);
    forall c <- ".[!:" ensures c !in name { assert c !in u.space; }
    ReadIndexOverflow(u, "", name);
    assert "" + name == name;
    ReadIndexPositional(u, name, 0);
    if ReadIndex(u, name).Positional? {
      assert false;
    }
  }

  lemma FormatField(u: CharTable, name: string, rest: string, values: map<string, string>)
    requires BraceFree(name) && '[' !in name && ':' !in name && '!' !in name
    requires name != ""
    ensures FormatMap(u, "{" + name + "}" + rest, values) ==
            Join(FieldText(u, values, name), FormatMap(u, rest, values))
  {
    var t := "{" + name + "}" + rest;
    var s := t[1..];
    assert s == name + "}" + rest;
    var n := FieldStop(s);
    assert s[|name|] == '}';
    forall i | 0 <= i < |name| ensures s[i] !in "{[}:!" { assert s[i] == name[i] && name[i] in name; }
    assert t[1] == name[0];
    assert s[..n] == name && t[n + 2..] == rest;
  }

  lemma {:induction false} FormatLiteral(u: CharTable, text: string, rest: string, values: map<string, string>)
    requires BraceFree(text)
    ensures FormatMap(u, text + rest, values) == Prepend(text, FormatMap(u, rest, values))
  {
    if text == "" {
      assert text + rest == rest;
      var o := FormatMap(u, rest, values);
      if o.Rendered? { assert "" + o.text == o.text; }
    } else {
      assert (text + rest)[1..] == text[1..] + rest && (text + rest)[..1] == text[..1];
      FormatLiteral(u, text[1..], rest, values);
      var o := FormatMap(u, rest, values);
      if o.Rendered? { assert text[..1] + (text[1..] + o.text) == text + o.text; }
    }
  }

  predicate AllKeys(u: CharTable, pieces: seq<Piece>) {
    forall p <- pieces :: p.Field? ==> !NotJustAKey(u, Strip(u, p.name))
  }

  predicate HasHugeNumber(u: CharTable, pieces: seq<Piece>) {
    exists p <- pieces :: p.Field? && HugeNumber(u, p.name)
  }

  lemma {:induction false} FormatPieces(u: CharTable, pieces: seq<Piece>, values: map<string, string>)
    requires u.Valid() && SpecialFree(u) && WellFormed(pieces) && AllKeys(u, pieces)
    ensures FormatMap(u, Source(pieces), values) ==
            if HasHugeNumber(u, pieces) then Raised else Rendered(Substitute(pieces, values))
  {
    if pieces != [] {
      var rest := pieces[1..];
      assert pieces == [pieces[0]] + rest;
      assert HasHugeNumber(u, pieces) <==>
             (pieces[0].Field? && HugeNumber(u, pieces[0].name)) || HasHugeNumber(u, rest);
      FormatPieces(u, rest, values);
      match pieces[0]
      case Literal(text) =>
        FormatLiteral(u, text, Source(rest), values);
      case Field(name) =>
        AcceptedName(u, values, name);
        FormatField(u, name, Source(rest), values);
    }
  }

  lemma {:induction false} NamesAreFields(pieces: seq<Piece>)
    ensures forall p <- pieces :: p.Field? ==> p.name in Names(pieces)
    ensures forall name <- Names(pieces) :: Field(name) in pieces
  {
    if pieces != [] {
      NamesAreFields(pieces[1..]);
      assert pieces == [pieces[0]] + pieces[1..];
    }
  }

  /** The listed placeholders are the fields' names, stripped. */
  lemma ListedAreStripped(u: CharTable, pieces: seq<Piece>)
    requires WellFormed(pieces)
    ensures forall s :: s in PlaceholdersIn(u, Source(pieces)) <==>
              exists p <- pieces :: p.Field? && Strip(u, p.name) == s
  {
    hide Strip, Source, WellFormed;
    PiecesScan(pieces);
    NamesAreFields(pieces);
    var names, listed := Names(pieces), PlaceholdersIn(u, Source(pieces));
    assert |listed| == |names| && forall i | 0 <= i < |names| :: listed[i] == Strip(u, names[i]);
    forall s <- listed ensures exists p <- pieces :: p.Field? && Strip(u, p.name) == s {
      var i :| 0 <= i < |listed| && listed[i] == s;
      assert names[i] in names && Field(names[i]) in pieces;
    }
    forall p <- pieces | p.Field? ensures Strip(u, p.name) in listed {
      var i :| 0 <= i < |names| && names[i] == p.name;
      assert listed[i] in listed;
    }
  }

  lemma FieldCheckOnPieces(u: CharTable, pieces: seq<Piece>)
    requires WellFormed(pieces)
    ensures !FieldAccessError(u, Source(pieces)) <==> AllKeys(u, pieces)
  {
    ListedAreStripped(u, pieces);
    hide Strip, NotJustAKey, PlaceholdersIn, Source, WellFormed;
  }

  /** field_access_error on a text of pieces: some field's name, white space aside, is empty, all
      digits, or has one of . [ ! : in it. */
  lemma FieldCheckExactly(u: CharTable, pieces: seq<Piece>)
    requires WellFormed(pieces)
    ensures FieldAccessError(u, Source(pieces)) <==>
            exists p <- pieces ::
              p.Field? && var name := Strip(u, p.name);
              || name == "" || '.' in name || '[' in name || '!' in name || ':' in name
              || (forall c <- name :: c in u.digit)
  {
    FieldCheckOnPieces(u, pieces);
    hide FieldAccessError, Strip, Source, WellFormed;
  }

  /** A name that starts with a number past 2^63 - 1. */
  lemma HugeNumberExactly(u: CharTable, name: string)
    ensures HugeNumber(u, name) <==>
            exists k | 0 <= k <= |name| ::
              (forall i | 0 <= i < k :: name[i] in u.decimal)
              && AllDecimal(u, name[..k]) && DecimalValue(u, name[..k]) > 9223372036854775807
    ensures forall s, c | AllDecimal(u, s) && c in u.decimal ::
              AllDecimal(u, s + [c]) && DecimalValue(u, "") == 0
              && DecimalValue(u, s + [c]) == DecimalValue(u, s) * 10 + u.decimal[c]
  {
    forall s, c | AllDecimal(u, s) && c in u.decimal
      ensures AllDecimal(u, s + [c]) && DecimalValue(u, s + [c]) == DecimalValue(u, s) * 10 + u.decimal[c]
    {
      assert (s + [c])[..|s|] == s;
    }
    forall k | 0 <= k <= |name| && AllDecimal(u, name[..k]) ensures forall i | 0 <= i < k :: name[i] in u.decimal {
      forall i | 0 <= i < k ensures name[i] in u.decimal { assert name[..k][i] == name[i]; }
    }
  }

  /** What one field of plain name becomes: the value, or the name in brackets with a question mark;
      and it raises when the name starts with a number past the index range. */
  lemma FieldRenders(u: CharTable, name: string, values: map<string, string>)
    requires u.Valid() && SpecialFree(u) && BraceFree(name) && !NotJustAKey(u, Strip(u, name))
    ensures FormatMap(u, "{" + name + "}", values) ==
            if HugeNumber(u, name) then Raised
            else Rendered(if name in values then values[name] else "[" + name + "?]")
  {
    AcceptedName(u, values, name);
    StripKeeps(u, name);
    assert "{" + name + "}" + "" == "{" + name + "}";
    FormatField(u, name, "", values);
    var shown := Lookup(values, name);
    assert shown + "" == shown;
  }

  /** A text before it, a doubled brace, a lone one. */
  lemma FormatAround(u: CharTable, text: string, rest: string, values: map<string, string>)
    ensures FormatMap(u, "", values) == Rendered("")
    ensures FormatMap(u, "{", values).Raised? && FormatMap(u, "}", values).Raised?
    ensures forall c | c == '{' || c == '}' ::
              FormatMap(u, [c, c] + rest, values) ==
              if FormatMap(u, rest, values).Rendered? then Rendered([c] + FormatMap(u, rest, values).text)
              else FormatMap(u, rest, values)
    ensures BraceFree(text) ==>
            FormatMap(u, text + rest, values) ==
            if FormatMap(u, rest, values).Rendered? then Rendered(text + FormatMap(u, rest, values).text)
            else FormatMap(u, rest, values)
  {
    if BraceFree(text) { FormatLiteral(u, text, rest, values); }
    forall c | c == '{' || c == '}'
      ensures FormatMap(u, [c, c] + rest, values) ==
              if FormatMap(u, rest, values).Rendered? then Rendered([c] + FormatMap(u, rest, values).text)
              else FormatMap(u, rest, values)
    {
      DoubledBrace(u, c, rest, values);
    }
  }

  lemma DoubledBrace(u: CharTable, c: char, rest: string, values: map<string, string>)
    requires IsBrace(c)
    ensures FormatMap(u, [c, c] + rest, values) == Prepend([c], FormatMap(u, rest, values))
  {
    var t := [c, c] + rest;
    assert t[0] == c && t[1] == c && t[2..] == rest && t[..1] == [c];
  }

  /** A template's substitution, piece by piece. */
  lemma SubstituteReads(p: Piece, rest: seq<Piece>, values: map<string, string>)
    ensures Substitute([], values) == ""
    ensures Substitute([p] + rest, values) ==
            (if p.Literal? then p.text else if p.name in values then values[p.name] else "[" + p.name + "?]")
            + Substitute(rest, values)
    ensures Source([p] + rest) == (if p.Literal? then p.text else "{" + p.name + "}") + Source(rest)
  {
    assert ([p] + rest)[1..] == rest;
  }

  /** A template both checks accept renders to its literals and looked-up values in
      order, whatever the values: str.format_map never raises on it, except in exactly
      one case the checks let through, a name starting with a number beyond MAX_INDEX. */
  lemma CheckedTemplateRenders(u: CharTable, t: string, values: map<string, string>) returns (pieces: seq<Piece>)
    requires u.Valid() && SpecialFree(u)
    requires !BraceError(u, t) && !FieldAccessError(u, t)
    ensures WellFormed(pieces) && Source(pieces) == t
    ensures FormatMap(u, t, values) ==
            if HasHugeNumber(u, pieces) then Raised else Rendered(Substitute(pieces, values))
  {
    BraceErrorExact(u, t);
    pieces :| WellFormed(pieces) && Source(pieces) == t;
    FieldCheckOnPieces(u, pieces);
    FormatPieces(u, pieces, values);
  }

  /** The checks list names without their padding, str.format looks them up with it: when
      every listed placeholder has a value, the fields that render as a missing marker are
      exactly the padded ones. */
  lemma PaddedFieldsMiss(u: CharTable, pieces: seq<Piece>, values: map<string, string>)
    requires WellFormed(pieces)
    requires forall name <- PlaceholdersIn(u, Source(pieces)) :: name in values
    requires forall key <- values.Keys :: Strip(u, key) == key
    ensures forall p <- pieces :: p.Field? ==> (p.name in values <==> p.name == Strip(u, p.name))
  {
    ListedAreStripped(u, pieces);
  }

  lemma HugeNumberIsAccepted(u: CharTable, digits: string, letter: char, values: map<string, string>)
    requires u.Valid() && SpecialFree(u)
    requires AllDecimal(u, digits) && DecimalValue(u, digits) > MAX_INDEX && BraceFree(digits)
    requires letter !in u.digit && letter !in u.space && letter !in ".[!:{}"
    requires forall c <- digits :: c !in ".[!:"
    ensures var t := "{" + (digits + [letter]) + "}";
            !BraceError(u, t) && !FieldAccessError(u, t) && FormatMap(u, t, values) == Raised
  {
    var name := digits + [letter];
    var pieces := [Field(name)];
    var t := "{" + name + "}";
    assert Source(pieces) == t by { assert pieces[1..] == []; assert t + "" == t; }
    assert WellFormed(pieces);
    assert !BraceError(u, t) by { BraceErrorExact(u, t); }
    assert !NotJustAKey(u, Strip(u, name)) by { DigitsAndLetter(u, digits, letter); }
    assert AllKeys(u, pieces);
    FieldCheckOnPieces(u, pieces);
    assert HugeNumber(u, name) by { assert name[..|digits|] == digits; }
    assert HasHugeNumber(u, pieces) by { assert Field(name) in pieces; }
    FormatPieces(u, pieces, values);
  }

  lemma DigitsAndLetter(u: CharTable, digits: string, letter: char)
    requires u.Valid() && AllDecimal(u, digits)
    requires letter !in u.digit && letter !in u.space && letter !in ".[!:{}"
    requires forall c <- digits :: c !in ".[!:"
    ensures !NotJustAKey(u, Strip(u, digits + [letter]))
  {}

  const TWENTY_NINES := "99999999999999999999"

  /** The case is real: twenty nines and a letter pass both checks and make format_map raise. */
  lemma HugeNumberSlipsThrough(u: CharTable, values: map<string, string>)
    requires u.Valid() && SpecialFree(u) && '9' in u.decimal && u.decimal['9'] == 9
    requires 'a' !in u.digit && 'a' !in u.space
    ensures var t := "{" + (TWENTY_NINES + ['a']) + "}";
            !BraceError(u, t) && !FieldAccessError(u, t) && FormatMap(u, t, values) == Raised
  {
    NinesValue(u, TWENTY_NINES);
    Pow10Add(10, 10);
    assert Text.Pow10(10) == 10000000000;
    HugeNumberIsAccepted(u, TWENTY_NINES, 'a', values);
  }

  lemma {:induction false} Pow10Add(m: nat, n: nat)
    ensures Text.Pow10(m + n) == Text.Pow10(m) * Text.Pow10(n)
  {
    if m > 0 { Pow10Add(m - 1, n); }
  }

  lemma {:induction false} NinesValue(u: CharTable, s: string)
    requires '9' in u.decimal && u.decimal['9'] == 9
    requires forall i | 0 <= i < |s| :: s[i] == '9'
    ensures DecimalValue(u, s) == Text.Pow10(|s|) - 1
    decreases |s|
  {
    if s != "" { NinesValue(u, s[..|s| - 1]); }
  }

  // ------------------------------------------------------------------ safe_format

  function SafeFormat(u: CharTable, template: string, values: map<string, string>, fallback: Option<string>): Outcome {
    var t := if !FieldAccessError(u, template) then template
             else if fallback.Some? then fallback.value else "";
    var first := FormatMap(u, t, values);
    if !first.Raised? then first
    else if fallback.None? then Rendered(t)
    else
      var second := FormatMap(u, fallback.value, values);
      if second.Raised? then Rendered(fallback.value) else second
  }

  /** Which text safe_format settles on. A template that fails the field check is not rendered at
      all: its fallback is, or nothing. One that passes is, unless it raises: then its fallback, or
      the template as stored. A fallback that raises is sent as it stands. */
  lemma SafeFormatSettles(u: CharTable, t: string, values: map<string, string>, fallback: Option<string>)
    ensures var r := SafeFormat(u, t, values, fallback);
            && (!FieldAccessError(u, t) && !FormatMap(u, t, values).Raised? ==> r == FormatMap(u, t, values))
            && (!FieldAccessError(u, t) && FormatMap(u, t, values).Raised? && fallback.None? ==> r == Rendered(t))
            && (FieldAccessError(u, t) && fallback.None? ==> r == Rendered(""))
            && (fallback.Some? && (FieldAccessError(u, t) || FormatMap(u, t, values).Raised?) ==>
                  r == if FormatMap(u, fallback.value, values).Raised? then Rendered(fallback.value)
                       else FormatMap(u, fallback.value, values))
  {
    hide FieldAccessError, FormatMap;
    EmptyRenders(u, values);
  }

  lemma EmptyRenders(u: CharTable, values: map<string, string>)
    ensures FormatMap(u, "", values) == Rendered("")
  {}

  /** safe_format never raises; on a checked template it gives the substitution, and in
      the one raising case the fallback (itself checked, without such names), or the
      template as stored when there is none. */
  lemma SafeFormatOnChecked(u: CharTable, t: string, values: map<string, string>, fallback: Option<string>)
    returns (pieces: seq<Piece>, fallbackPieces: seq<Piece>)
    requires u.Valid() && SpecialFree(u)
    requires !BraceError(u, t) && !FieldAccessError(u, t)
    requires fallback.Some? ==> !BraceError(u, fallback.value) && !FieldAccessError(u, fallback.value)
    ensures WellFormed(pieces) && Source(pieces) == t
    ensures fallback.Some? ==> WellFormed(fallbackPieces) && Source(fallbackPieces) == fallback.value
    ensures SafeFormat(u, t, values, fallback) ==
            if !HasHugeNumber(u, pieces) then Rendered(Substitute(pieces, values))
            else if fallback.None? then Rendered(t)
            else if HasHugeNumber(u, fallbackPieces) then Rendered(fallback.value)
            else Rendered(Substitute(fallbackPieces, values))
  {
    pieces := CheckedTemplateRenders(u, t, values);
    fallbackPieces := [];
    if fallback.Some? { fallbackPieces := CheckedTemplateRenders(u, fallback.value, values); }
  }

  /** A text that passes both checks never goes beyond str.format's plain keys. */
  lemma CheckedIsNotBeyond(u: CharTable, t: string, values: map<string, string>)
    requires u.Valid() && SpecialFree(u)
    requires !FieldAccessError(u, t) && FormatMap(u, t, values).Beyond?
    ensures BraceError(u, t)
  {
    if !BraceError(u, t) {
      var _ := CheckedTemplateRenders(u, t, values);
    }
  }

  /** What safe_format comes to, for any stored text, values and fallback. It fails to
      render exactly when the text it settles on goes beyond, or raises and its fallback
      goes beyond; which the scan of the text alone decides. */
  lemma SafeFormatBeyondIff(u: CharTable, t: string, values: map<string, string>, fallback: Option<string>)
    ensures var text := if !FieldAccessError(u, t) then t else if fallback.Some? then fallback.value else "";
            SafeFormat(u, t, values, fallback).Rendered? <==>
            && !StopsBeyond(u, Tokens(text))
            && (AllRender(u, Tokens(text)) || fallback.None? || !StopsBeyond(u, Tokens(fallback.value)))
    ensures !SafeFormat(u, t, values, fallback).Rendered? ==> SafeFormat(u, t, values, fallback).Beyond?
  {
    var text := if !FieldAccessError(u, t) then t else if fallback.Some? then fallback.value else "";
    hide FormatMap, FieldAccessError, StopsBeyond, AllRender, Tokens;
    FormatMapStops(u, text, values);
    if fallback.Some? { FormatMapStops(u, fallback.value, values); }
  }

  /** So it always renders a text that passes the brace check, or fails the field check,
      with a fallback, if any, that passes both. Those are the checks on saving. */
  lemma SafeFormatRenders(u: CharTable, t: string, values: map<string, string>, fallback: Option<string>)
    requires u.Valid() && SpecialFree(u)
    requires !BraceError(u, t) || FieldAccessError(u, t)
    requires fallback.Some? ==> !BraceError(u, fallback.value) && !FieldAccessError(u, fallback.value)
    ensures SafeFormat(u, t, values, fallback).Rendered?
  {
    if fallback.Some? { var _ := CheckedTemplateRenders(u, fallback.value, values); }
    if !FieldAccessError(u, t) { var _ := CheckedTemplateRenders(u, t, values); }
  }

  /** The field check alone is not enough: a field inside another's format specification
      passes it, and the specification is then whatever the value says. */
  lemma NestedFieldGoesBeyond(u: CharTable, values: map<string, string>, fallback: Option<string>)
    requires 'b' !in u.digit && 'b' !in u.space
    ensures !FieldAccessError(u, "{a:{b}}") && BraceError(u, "{a:{b}}")
    ensures SafeFormat(u, "{a:{b}}", values, fallback).Beyond?
  {
    hide FormatMap, RawPlaceholders, Count;
    NestedIsBeyond(u, values);
    NestedScan();
    CountTwo();
    assert PlaceholdersIn(u, "{a:{b}}") == ["b"] by { assert Strip(u, "b") == "b"; }
  }

  lemma NestedIsBeyond(u: CharTable, values: map<string, string>)
    ensures FormatMap(u, "{a:{b}}", values).Beyond?
  {
    var t := "{a:{b}}";
    assert t[1..] == "a:{b}}" && "a:{b}}"[1..] == ":{b}}";
    assert FieldStop("a:{b}}") == 1;
  }

  lemma NestedScan()
    ensures RawPlaceholders("{a:{b}}") == ["b"]
  {
    hide NameLength;
    var t := "{a:{b}}";
    PlaceholdersTakeField("b", "}");
    assert "{" + "b" + "}" + "}" == "{b}}";
    assert RawPlaceholders("}") == [] by { assert "}"[1..] == ""; }
    PlaceholdersSkipLiteral("a:", "{b}}");
    assert "a:" + "{b}}" == t[1..];
    NestedName();
  }

  lemma NestedName()
    ensures NameLength("a:{b}}") == 2
  {
    assert "a:{b}}"[1..] == ":{b}}" && ":{b}}"[1..] == "{b}}";
  }

  lemma CountTwo()
    ensures Count('{', "{a:{b}}") == 2
  {
    assert "{a:{b}}" == "{a:" + ("{b" + "}}");
    CountConcat('{', "{a:", "{b" + "}}"); CountConcat('{', "{b", "}}");
    CountConcat('{', "{", "a:"); CountConcat('{', "{", "b");
    CountAbsent('{', "a:"); CountAbsent('{', "b"); CountAbsent('{', "}}");
    assert "{a:" == "{" + "a:" && "{b" == "{" + "b";
  }

  // ------------------------------------------------------------------- escaping

  /** str.replace of one character. */
  function Replace(s: string, c: char, sub: string): string {
    if s == "" then "" else (if s[0] == c then sub else [s[0]]) + Replace(s[1..], c, sub)
  }

  /** html.escape(value, quote=True): five passes over the whole text, '&' first. */
  function Escape(s: string): string {
    var brackets := Replace(Replace(Replace(s, '&', "&amp;"), '<', "&lt;"), '>', "&gt;");
    Replace(Replace(brackets, '"', "&quot;"), '\'', "&#x27;")
  }

  function EscapeValues(values: map<string, string>): map<string, string> {
    map key <- values.Keys :: Escape(values[key])
  }

  function Entity(c: char): string {
    match c
    case '&' => "&amp;"
    case '<' => "&lt;"
    case '>' => "&gt;"
    case '"' => "&quot;"
    case '\'' => "&#x27;"
    case _ => [c]
  }

  function EscapeEach(s: string): string {
    if s == "" then "" else Entity(s[0]) + EscapeEach(s[1..])
  }

  lemma {:induction false} ReplaceConcat(a: string, b: string, c: char, sub: string)
    ensures Replace(a + b, c, sub) == Replace(a, c, sub) + Replace(b, c, sub)
  {
    if a == "" {
      assert a + b == b;
    } else {
      assert (a + b)[1..] == a[1..] + b;
      ReplaceConcat(a[1..], b, c, sub);
    }
  }

  lemma {:induction false} ReplaceAbsent(s: string, c: char, sub: string)
    requires c !in s
    ensures Replace(s, c, sub) == s
  {
    if s != "" { ReplaceAbsent(s[1..], c, sub); }
  }

  lemma EscapeConcat(a: string, b: string)
    ensures Escape(a + b) == Escape(a) + Escape(b)
  {
    ReplaceConcat(a, b, '&', "&amp;");
    var a1, b1 := Replace(a, '&', "&amp;"), Replace(b, '&', "&amp;");
    ReplaceConcat(a1, b1, '<', "&lt;");
    var a2, b2 := Replace(a1, '<', "&lt;"), Replace(b1, '<', "&lt;");
    ReplaceConcat(a2, b2, '>', "&gt;");
    var a3, b3 := Replace(a2, '>', "&gt;"), Replace(b2, '>', "&gt;");
    ReplaceConcat(a3, b3, '"', "&quot;");
    var a4, b4 := Replace(a3, '"', "&quot;"), Replace(b3, '"', "&quot;");
    ReplaceConcat(a4, b4, '\'', "&#x27;");
  }

  lemma ReplaceOne(c: char, d: char, sub: string)
    ensures Replace([c], d, sub) == if c == d then sub else [c]
  {}

  lemma EntityIsClean(c: char, d: char)
    requires IsEscaped(c) && IsEscaped(d) && d != '&'
    ensures d !in Entity(c)
  {}

  lemma EscapeOne(c: char)
    ensures Escape([c]) == Entity(c)
  {
    ReplaceOne(c, '&', "&amp;"); ReplaceOne(c, '<', "&lt;"); ReplaceOne(c, '>', "&gt;");
    ReplaceOne(c, '"', "&quot;"); ReplaceOne(c, '\'', "&#x27;");
    if IsEscaped(c) {
      var e := Entity(c);
      EntityIsClean(c, '<'); ReplaceAbsent(e, '<', "&lt;");
      EntityIsClean(c, '>'); ReplaceAbsent(e, '>', "&gt;");
      EntityIsClean(c, '"'); ReplaceAbsent(e, '"', "&quot;");
      EntityIsClean(c, '\''); ReplaceAbsent(e, '\'', "&#x27;");
    }
  }

  predicate IsEscaped(c: char) { c in "&<>\"'" }

  /** The five entities; everything else stays; keys stay. */
  lemma EscapeIs(c: char, values: map<string, string>)
    ensures Escape("&") == "&amp;" && Escape("<") == "&lt;" && Escape(">") == "&gt;"
    ensures Escape("\"") == "&quot;" && Escape("'") == "&#x27;"
    ensures c != '&' && c != '<' && c != '>' && c != '"' && c != '\'' ==> Escape([c]) == [c]
    ensures EscapeValues(values).Keys == values.Keys
    ensures forall key <- values.Keys :: EscapeValues(values)[key] == Escape(values[key])
  {
    hide Escape;
    EscapeOne('&'); EscapeOne('<'); EscapeOne('>'); EscapeOne('"'); EscapeOne('\''); EscapeOne(c);
  }

  /** The five passes never touch each other's output: they are one pass over the characters. */
  lemma {:induction false} EscapeIsPerCharacter(s: string)
    ensures Escape(s) == EscapeEach(s)
  {
    if s != "" {
      EscapeConcat(s[..1], s[1..]);
      assert s == s[..1] + s[1..];
      assert s[..1] == [s[0]];
      EscapeOne(s[0]);
      EscapeIsPerCharacter(s[1..]);
    }
  }

  /** The character an entity at the head of s stands for, and how long the entity is. */
  function Decode(s: string): (char, nat)
    requires s != ""
  {
    if "&amp;" <= s then ('&', 5)
    else if "&lt;" <= s then ('<', 4)
    else if "&gt;" <= s then ('>', 4)
    else if "&quot;" <= s then ('"', 6)
    else if "&#x27;" <= s then ('\'', 6)
    else (s[0], 1)
  }

  function Unescape(s: string): string {
    if s == "" then ""
    else
      var (c, n) := Decode(s);
      [c] + Unescape(s[n..])
  }

  lemma DecodeEntity(c: char, tail: string)
    ensures Decode(Entity(c) + tail) == (c, |Entity(c)|)
  {
    var whole := Entity(c) + tail;
    if c == '&' {
      assert "&amp;" <= whole;
    } else if c == '<' {
      assert whole[1] == 'l' && "&lt;" <= whole;
    } else if c == '>' {
      assert whole[1] == 'g' && "&gt;" <= whole;
    } else if c == '"' {
      assert whole[1] == 'q' && "&quot;" <= whole;
    } else if c == '\'' {
      assert whole[1] == '#' && "&#x27;" <= whole;
    } else {
      assert whole[0] == c;
    }
  }

  /** Escaping loses nothing. */
  lemma {:induction false} UnescapeEscape(s: string)
    ensures Unescape(Escape(s)) == s
  {
    hide Escape, Decode;
    EscapeIsPerCharacter(s);
    if s != "" {
      EscapeIsPerCharacter(s[1..]);
      UnescapeEscape(s[1..]);
      var tail := EscapeEach(s[1..]);
      var whole := Entity(s[0]) + tail;
      assert whole[|Entity(s[0])|..] == tail;
      DecodeEntity(s[0], tail);
    }
  }

  lemma EntityHidesMarkup(c: char, d: char)
    requires IsEscaped(c) && c != '&'
    ensures Count(c, Entity(d)) == 0
  {
    CountAbsent(c, Entity(d));
  }

  lemma {:induction false} EscapeHidesMarkup(c: char, s: string)
    requires IsEscaped(c) && c != '&'
    ensures Count(c, Escape(s)) == 0
  {
    hide Escape, Entity;
    EscapeIsPerCharacter(s);
    if s != "" {
      EscapeIsPerCharacter(s[1..]);
      EscapeHidesMarkup(c, s[1..]);
      CountConcat(c, Entity(s[0]), EscapeEach(s[1..]));
      EntityHidesMarkup(c, s[0]);
    }
  }

  /** The rendered text with every looked-up value taken out: what the template itself contributes. */
  function TemplateText(pieces: seq<Piece>, values: map<string, string>): string {
    if pieces == [] then ""
    else
      (if pieces[0].Literal? then pieces[0].text
       else if pieces[0].name in values then ""
       else Lookup(values, pieces[0].name)) + TemplateText(pieces[1..], values)
  }

  lemma FieldSourceCounts(c: char, name: string, rest: string)
    ensures Count(c, "{" + name + "}" + rest) >= Count(c, name) + Count(c, rest)
  {
    hide Count;
    assert "{" + name + "}" + rest == "{" + (name + ("}" + rest));
    CountConcat(c, "{", name + ("}" + rest)); CountConcat(c, name, "}" + rest); CountConcat(c, "}", rest);
  }

  lemma MissCounts(c: char, name: string)
    requires IsEscaped(c)
    ensures Count(c, "[" + name + "?]") == Count(c, name)
  {
    assert "[" + name + "?]" == "[" + (name + "?]");
    CountConcat(c, "[", name + "?]"); CountConcat(c, name, "?]");
    CountAbsent(c, "["); CountAbsent(c, "?]");
  }

  /** With escaped values every markup character of the output comes from the template's
      own text, and there are never more of them than in the template. */
  lemma {:induction false} MarkupComesFromTemplate(c: char, pieces: seq<Piece>, values: map<string, string>)
    requires c == '<' || c == '>' || c == '"' || c == '\''
    ensures Count(c, Substitute(pieces, EscapeValues(values))) == Count(c, TemplateText(pieces, values))
    ensures Count(c, Substitute(pieces, EscapeValues(values))) <= Count(c, Source(pieces))
  {
    hide Count, Escape;
    if pieces != [] {
      var escaped := EscapeValues(values);
      MarkupComesFromTemplate(c, pieces[1..], values);
      var rest, out, own := Source(pieces[1..]), Substitute(pieces[1..], escaped), TemplateText(pieces[1..], values);
      match pieces[0]
      case Literal(text) =>
        CountConcat(c, text, out); CountConcat(c, text, own); CountConcat(c, text, rest);
      case Field(name) =>
        FieldSourceCounts(c, name, rest);
        CountConcat(c, Lookup(escaped, name), out);
        if name in values {
          EscapeHidesMarkup(c, values[name]);
          assert "" + own == own;
        } else {
          CountConcat(c, Lookup(values, name), own);
          MissCounts(c, name);
        }
    }
  }
}
