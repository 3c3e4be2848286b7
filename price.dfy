// The per-row price parse of `process_price`: the pattern
//
//   (?P<currency_symbol>₹|Rs\.?|\$|€)?\s*(?P<new_price>[\d,]+\.?\d*)(\s*/\s*(?P<unit>[a-zA-Z]+))?
//
/**
 * applied with search semantics (the leftmost position at which the pattern
 * matches wins, each quantifier greedy), the amount read as an exact decimal
 * once its commas are removed, and the currency taken from a fixed table
 * with an `INR` default.
 *
 * `Search` follows the regular-expression engine: it tries each start
 * position in turn and, at each one, the symbol alternatives in the order
 * the engine tries them. `FirstDigitReading` is an independent reading of
 * the same pattern, and `SearchIsFirstDigitReading` proves the two agree.
 */
module PriceParser {
  import opened Wrappers
  import opened Text

  /** The alternatives of the `currency_symbol` group. */
  datatype Symbol = Rupee | RsDot | Rs | Dollar | Euro

  function SymbolText(sym: Symbol): (t: string)
    ensures 1 <= |t| <= 3
  {
    match sym
    case Rupee => "\U{20B9}"
    case RsDot => "Rs."
    case Rs => "Rs"
    case Dollar => "$"
    case Euro => "\U{20AC}"
  }

  /** The `currency_map` table. */
  function CurrencyOf(sym: Symbol): (code: string)
    ensures code in {"INR", "USD", "EUR"}
  {
    match sym
    case Rupee => "INR"
    case RsDot => "INR"
    case Rs => "INR"
    case Dollar => "USD"
    case Euro => "EUR"
  }

  /**
   * An exact decimal number, kept as the digits before and after its point
   * (either may be empty, not both): `whole.fraction` in base 10.
   */
  datatype Decimal = Decimal(whole: string, fraction: string)

  /**
   * One match of the pattern: where it starts, the captured symbol, the
   * span `[amountStart, amountEnd)` of the `new_price` group, and the
   * captured unit.
   */
  datatype Match = Match(start: nat, symbol: Option<Symbol>, amountStart: nat, amountEnd: nat, unit: Option<string>)

  /** The `price`, `unit` and `currency` cells `process_price` writes for one row. */
  datatype PriceFields = PriceFields(amount: Option<Decimal>, unit: Option<string>, currency: Option<string>)

  /** The character classes the pattern uses: `\s`, `[\d,]`, `\d`, `[a-zA-Z]`. */
  datatype CharClass = Space | DigitOrComma | Digit | Letter

  predicate InClass(c: char, cls: CharClass)
  {
    match cls
    case Space => IsSpace(c)
    case DigitOrComma => IsDigit(c) || c == ','
    case Digit => IsDigit(c)
    case Letter => IsAsciiLetter(c)
  }

  /** A greedy `[cls]*` from position `i`: the end of the longest run of `cls` characters. */
  function RunEnd(s: string, i: nat, cls: CharClass): (e: nat)
    requires i <= |s|
    ensures i <= e <= |s|
    ensures forall k :: i <= k < e ==> InClass(s[k], cls)
    ensures e == |s| || !InClass(s[e], cls)
    decreases |s| - i
  {
    if i < |s| && InClass(s[i], cls) then RunEnd(s, i + 1, cls) else i
  }

  /** The run that starts at `i` ends exactly at `j`. */
  lemma RunEndIs(s: string, i: nat, j: nat, cls: CharClass)
    requires i <= j <= |s|
    requires forall k :: i <= k < j ==> InClass(s[k], cls)
    requires j == |s| || !InClass(s[j], cls)
    ensures RunEnd(s, i, cls) == j
  {
  }

  predicate SymbolAt(s: string, i: nat, sym: Option<Symbol>)
  {
    sym.Some? ==> OccursAt(s, SymbolText(sym.value), i)
  }

  function SymbolEnd(i: nat, sym: Option<Symbol>): nat
  {
    if sym.Some? then i + |SymbolText(sym.value)| else i
  }

  /**
   * The ways `(₹|Rs\.?|\$|€)?` can match at `i`, in the order the engine
   * tries them: the alternatives left to right (`Rs.` before `Rs`, as `\.?`
   * is greedy), then the empty match of the optional group.
   */
  function SymbolChoices(s: string, i: nat): (cs: seq<Option<Symbol>>)
    requires i <= |s|
    ensures |cs| > 0 && cs[|cs| - 1] == None
    ensures forall j :: 0 <= j < |cs| ==> SymbolAt(s, i, cs[j])
  {
    if i < |s| && s[i] == '\U{20B9}' then [Some(Rupee), None]
    else if i + 2 < |s| && s[i] == 'R' && s[i + 1] == 's' && s[i + 2] == '.' then [Some(RsDot), Some(Rs), None]
    else if i + 1 < |s| && s[i] == 'R' && s[i + 1] == 's' then [Some(Rs), None]
    else if i < |s| && s[i] == '$' then [Some(Dollar), None]
    else if i < |s| && s[i] == '\U{20AC}' then [Some(Euro), None]
    else [None]
  }

  /** Where `[\d,]+\.?\d*` ends when its first character is at `p`. */
  function AmountEnd(s: string, p: nat): (e: nat)
    requires p <= |s|
    ensures p <= e <= |s|
  {
    var a := RunEnd(s, p, DigitOrComma);
    var b := if a < |s| && s[a] == '.' then a + 1 else a;
    RunEnd(s, b, Digit)
  }

  /** Digits, commas and points: the characters `[\d,]+\.?\d*` can take. */
  predicate AmountChars(t: string)
  {
    forall k :: 0 <= k < |t| ==> IsDigit(t[k]) || t[k] == ',' || t[k] == '.'
  }

  /**
   * The `new_price` text: digits and commas, at most one point after them,
   * then digits; it ends at the end of `s` or before a non-digit.
   */
  lemma AmountEndShape(s: string, p: nat)
    requires p <= |s|
    ensures AmountChars(s[p..AmountEnd(s, p)])
    ensures forall k, l :: p <= k < l < AmountEnd(s, p) && s[k] == '.' ==> s[l] != '.'
    ensures AmountEnd(s, p) == |s| || !IsDigit(s[AmountEnd(s, p)])
  {
    var e := AmountEnd(s, p);
    forall k | 0 <= k < e - p ensures IsDigit(s[p..e][k]) || s[p..e][k] == ',' || s[p..e][k] == '.' {
      assert s[p..e][k] == s[p + k];
    }
  }

  // The `unit` group of `(\s*/\s*(?P<unit>[a-zA-Z]+))?` tried at position `e`.
  function UnitAfter(s: string, e: nat): (u: Option<string>)
    requires e <= |s|
    ensures u.Some? ==> u.value != [] && forall k :: 0 <= k < |u.value| ==> IsAsciiLetter(u.value[k])
  {
    var q := RunEnd(s, e, Space);
    if q < |s| && s[q] == '/' then
      var l := RunEnd(s, q + 1, Space);
      var r := RunEnd(s, l, Letter);
      if l < r then Some(s[l..r]) else None
    else None
  }

  /** What every match found at `i` looks like. */
  predicate Shaped(s: string, i: nat, m: Match)
  {
    && m.start == i
    && SymbolAt(s, i, m.symbol)
    && SymbolEnd(i, m.symbol) <= m.amountStart < |s|
    && AllSpace(s[SymbolEnd(i, m.symbol)..m.amountStart])
    && InClass(s[m.amountStart], DigitOrComma)
    && m.amountEnd == AmountEnd(s, m.amountStart)
    && m.unit == UnitAfter(s, m.amountEnd)
  }

  /**
   * The rest of the pattern, `\s*` then `new_price` then the optional unit,
   * after the symbol choice `sym` made at `start`. A shorter `\s*` than the
   * greedy one would stop on whitespace, which `[\d,]` cannot match, so the
   * engine's backtracking into `\s*` never finds another match.
   */
  function MatchWith(s: string, start: nat, sym: Option<Symbol>): (r: Option<Match>)
    requires start <= |s| && SymbolAt(s, start, sym)
    ensures r.Some? ==> Shaped(s, start, r.value)
  {
    var p := RunEnd(s, SymbolEnd(start, sym), Space);
    if p < |s| && InClass(s[p], DigitOrComma) then
      var e := AmountEnd(s, p);
      Some(Match(start, sym, p, e, UnitAfter(s, e)))
    else None
  }

  /** The first symbol choice with which the rest of the pattern matches. */
  function TryChoices(s: string, start: nat, cs: seq<Option<Symbol>>): (r: Option<Match>)
    requires start <= |s|
    requires forall j :: 0 <= j < |cs| ==> SymbolAt(s, start, cs[j])
    ensures r.Some? ==> Shaped(s, start, r.value)
  {
    if cs == [] then None
    else
      var m := MatchWith(s, start, cs[0]);
      if m.Some? then m else TryChoices(s, start, cs[1..])
  }

  /**
   * The engine's fallback between alternatives: there is no match iff no
   * choice lets the rest of the pattern match.
   */
  lemma {:induction false} TryChoicesNone(s: string, start: nat, cs: seq<Option<Symbol>>)
    requires start <= |s|
    requires forall j :: 0 <= j < |cs| ==> SymbolAt(s, start, cs[j])
    ensures TryChoices(s, start, cs).None? <==> FailBefore(s, start, cs, |cs|)
  {
    if cs != [] {
      var rest := cs[1..];
      TryChoicesNone(s, start, rest);
      if MatchWith(s, start, cs[0]).None? {
        assert FailBefore(s, start, cs, |cs|) <==> FailBefore(s, start, rest, |rest|) by {
          assert forall j :: 0 < j < |cs| ==> cs[j] == rest[j - 1];
        }
      }
    }
  }

  /**
   * When the `j`-th choice is the first that lets the rest of the pattern
   * match, the match found is the one it gives.
   */
  lemma {:induction false} TryChoicesFirst(s: string, start: nat, cs: seq<Option<Symbol>>, j: nat)
    requires start <= |s| && j < |cs|
    requires forall k :: 0 <= k < |cs| ==> SymbolAt(s, start, cs[k])
    requires FailBefore(s, start, cs, j) && MatchWith(s, start, cs[j]).Some?
    ensures TryChoices(s, start, cs) == MatchWith(s, start, cs[j])
  {
    if j > 0 {
      var rest := cs[1..];
      assert MatchWith(s, start, cs[0]).None?;
      assert rest[j - 1] == cs[j];
      assert FailBefore(s, start, rest, j - 1) by {
        assert forall k :: 0 <= k < j - 1 ==> rest[k] == cs[k + 1];
      }
      TryChoicesFirst(s, start, rest, j - 1);
    }
  }

  /** No choice before the `j`-th lets the rest of the pattern match. */
  predicate FailBefore(s: string, start: nat, cs: seq<Option<Symbol>>, j: nat)
    requires start <= |s| && j <= |cs|
    requires forall k :: 0 <= k < |cs| ==> SymbolAt(s, start, cs[k])
  {
    forall k :: 0 <= k < j ==> MatchWith(s, start, cs[k]).None?
  }

  /** The match the engine finds when it starts at `i`, if any. */
  function MatchAt(s: string, i: nat): (r: Option<Match>)
    requires i <= |s|
    ensures r.Some? ==> Shaped(s, i, r.value)
  {
    TryChoices(s, i, SymbolChoices(s, i))
  }

  /** `re.search` from position `i`: the match at the leftmost start that has one. */
  function Search(s: string, i: nat): (r: Option<Match>)
    requires i <= |s|
    ensures r.Some? ==> i <= r.value.start && Shaped(s, r.value.start, r.value)
    decreases |s| - i
  {
    var m := MatchAt(s, i);
    if m.Some? || i == |s| then m else Search(s, i + 1)
  }

  /**
   * `pd.to_numeric(t, errors='coerce')` on the texts the pattern can
   * capture once commas are removed (digits, at most one `.`, digits);
   * `None` stands for NaN. Other texts cannot arise here and read as NaN.
   */
  function ToDecimal(t: string): (d: Option<Decimal>)
    ensures d.Some? ==> AllDigits(d.value.whole) && AllDigits(d.value.fraction)
    ensures d.Some? ==> d.value.whole + d.value.fraction != []
    ensures d.Some? ==> (t == d.value.whole && d.value.fraction == "") || t == d.value.whole + "." + d.value.fraction
  {
    var k := RunEnd(t, 0, Digit);
    if k == |t| then
      if k == 0 then None else Some(Decimal(t, ""))
    else if t[k] == '.' && RunEnd(t, k + 1, Digit) == |t| && |t| > 1 then
      assert t == t[..k] + "." + t[k + 1..];
      Some(Decimal(t[..k], t[k + 1..]))
    else None
  }

  /**
   * `process_price` for one row: the price text (`None` for a missing or
   * non-text cell) becomes the parsed amount, the unit and the currency.
   * The currency comes from the captured symbol even when the amount is
   * NaN; `INR` is filled in only when an amount was read and no symbol was
   * captured.
   */
  function ParsePrice(price: Option<string>): (r: PriceFields)
    ensures price.None? ==> r == PriceFields(None, None, None)
    ensures r.amount.Some? ==> r.currency.Some?
    ensures r.currency.Some? ==> r.currency.value in {"INR", "USD", "EUR"}
  {
    if price.None? then PriceFields(None, None, None)
    else
      var s := price.value;
      match Search(s, 0)
      case None => PriceFields(None, None, None)
      case Some(m) =>
        var amount := ToDecimal(RemoveAll(s[m.amountStart..m.amountEnd], ','));
        var currency :=
          if m.symbol.Some? then Some(CurrencyOf(m.symbol.value))
          else if amount.Some? then Some("INR")
          else None;
        PriceFields(amount, m.unit, currency)
  }

  // ---------------------------------------------------------------------
  // The reference reading of the pattern
  // ---------------------------------------------------------------------

  /** Index of the first digit or comma of `s`, or `|s|` when there is none. */
  function FirstAmountChar(s: string): (f: nat)
    ensures f <= |s|
    ensures forall k :: 0 <= k < f ==> !InClass(s[k], DigitOrComma)
    ensures f < |s| ==> InClass(s[f], DigitOrComma)
  {
    if s == [] then 0
    else if InClass(s[0], DigitOrComma) then 0
    else 1 + FirstAmountChar(s[1..])
  }

  /** The currency symbol `s[..l]` ends with, if any. */
  function SymbolEndingAt(s: string, l: nat): (sym: Option<Symbol>)
    requires l <= |s|
    ensures sym.Some? ==> EndsAt(s, SymbolText(sym.value), l)
  {
    if 1 <= l && s[l - 1] == '\U{20B9}' then Some(Rupee)
    else if 3 <= l && s[l - 3] == 'R' && s[l - 2] == 's' && s[l - 1] == '.' then Some(RsDot)
    else if 2 <= l && s[l - 2] == 'R' && s[l - 1] == 's' then Some(Rs)
    else if 1 <= l && s[l - 1] == '$' then Some(Dollar)
    else if 1 <= l && s[l - 1] == '\U{20AC}' then Some(Euro)
    else None
  }

  function SymbolStart(l: nat, sym: Option<Symbol>): nat
  {
    if sym.Some? && |SymbolText(sym.value)| <= l then l - |SymbolText(sym.value)| else l
  }

  /** Where the whitespace run that ends at the first digit or comma begins. */
  function GapStart(s: string): (l: nat)
    ensures l <= FirstAmountChar(s)
  {
    |TrimEnd(s[..FirstAmountChar(s)])|
  }

  /**
   * The pattern read without an engine: the amount starts at the first
   * digit or comma of the string, and the symbol is the currency sign that
   * precedes it, whitespace allowed in between.
   */
  function FirstDigitReading(s: string): Option<Match>
  {
    var f := FirstAmountChar(s);
    if f == |s| then None
    else
      var e := AmountEnd(s, f);
      Some(Match(ReadingStart(s), SymbolEndingAt(s, GapStart(s)), f, e, UnitAfter(s, e)))
  }

  /** Where the reference reading's match starts: at the symbol, or else at the gap. */
  function ReadingStart(s: string): (i: nat)
    ensures i <= GapStart(s)
  {
    SymbolStart(GapStart(s), SymbolEndingAt(s, GapStart(s)))
  }

  lemma SymbolCharsAreInert(sym: Symbol, k: nat)
    requires k < |SymbolText(sym)|
    ensures !IsSpace(SymbolText(sym)[k]) && !InClass(SymbolText(sym)[k], DigitOrComma)
  {
  }

  /** A match that starts no later than the first digit or comma has its amount there. */
  lemma AmountStartIsFirst(s: string, i: nat, m: Match)
    requires i <= FirstAmountChar(s) && Shaped(s, i, m)
    ensures m.amountStart == FirstAmountChar(s)
  {
    var j := SymbolEnd(i, m.symbol);
    forall k | i <= k < m.amountStart ensures !InClass(s[k], DigitOrComma) {
      if k < j {
        assert s[k] == SymbolText(m.symbol.value)[k - i];
        SymbolCharsAreInert(m.symbol.value, k - i);
      } else {
        assert s[k] == s[j..m.amountStart][k - j];
      }
    }
  }

  /** Whitespace that runs up to the first digit or comma starts no earlier than the gap. */
  lemma SpaceRunInGap(s: string, j: nat)
    requires j <= FirstAmountChar(s) && AllSpace(s[j..FirstAmountChar(s)])
    ensures GapStart(s) <= j
  {
    var p := s[..FirstAmountChar(s)];
    assert p[j..] == s[j..FirstAmountChar(s)];
    TrimEndBefore(p, j);
  }

  /** A non-space character just before whitespace that reaches the first digit or comma marks the gap. */
  lemma NonSpaceBeforeGap(s: string, j: nat)
    requires 0 < j <= FirstAmountChar(s) && AllSpace(s[j..FirstAmountChar(s)]) && !IsSpace(s[j - 1])
    ensures GapStart(s) == j
  {
    var p := s[..FirstAmountChar(s)];
    assert p[j..] == s[j..FirstAmountChar(s)];
    assert p[j - 1] == s[j - 1];
    TrimEndAt(p, j);
  }

  /** The symbol `s[..l]` ends with is the one `SymbolEndingAt` reports. */
  lemma SymbolEndingAtFinds(s: string, l: nat, sym: Symbol)
    requires l <= |s| && EndsAt(s, SymbolText(sym), l)
    ensures SymbolEndingAt(s, l) == Some(sym)
  {
    SymbolCharsAt(s, l - |SymbolText(sym)|, sym);
  }

  /** The characters of a symbol that occurs at `i`. */
  lemma SymbolCharsAt(s: string, i: nat, sym: Symbol)
    requires OccursAt(s, SymbolText(sym), i)
    ensures sym == Rupee ==> s[i] == '\U{20B9}'
    ensures sym == RsDot ==> s[i] == 'R' && s[i + 1] == 's' && s[i + 2] == '.'
    ensures sym == Rs ==> s[i] == 'R' && s[i + 1] == 's'
    ensures sym == Dollar ==> s[i] == '$'
    ensures sym == Euro ==> s[i] == '\U{20AC}'
  {
    var t := SymbolText(sym);
    assert s[i + 0] == t[0];
    if |t| > 1 { assert s[i + 1] == t[1]; }
    if |t| > 2 { assert s[i + 2] == t[2]; }
  }

  /**
   * A match that starts no later than the first digit or comma has its
   * amount there, and its symbol, if any, ends where the whitespace before
   * the amount begins.
   */
  lemma MatchBeforeFirstDigit(s: string, i: nat, m: Match)
    requires i <= FirstAmountChar(s) && Shaped(s, i, m)
    ensures m.amountStart == FirstAmountChar(s)
    ensures m.symbol.None? ==> GapStart(s) <= i
    ensures m.symbol.Some? ==> SymbolEnd(i, m.symbol) == GapStart(s) && m.symbol == SymbolEndingAt(s, GapStart(s))
  {
    AmountStartIsFirst(s, i, m);
    var j := SymbolEnd(i, m.symbol);
    SpaceRunInGap(s, j);
    if m.symbol.Some? {
      var t := SymbolText(m.symbol.value);
      assert s[j - 1] == t[|t| - 1];
      SymbolCharsAreInert(m.symbol.value, |t| - 1);
      NonSpaceBeforeGap(s, j);
      assert EndsAt(s, t, j);
      SymbolEndingAtFinds(s, j, m.symbol.value);
    }
  }

  /** The whitespace run before the first digit or comma ends at it. */
  lemma GapRunEndsAtAmount(s: string)
    requires FirstAmountChar(s) < |s|
    ensures RunEnd(s, GapStart(s), Space) == FirstAmountChar(s)
  {
    var f := FirstAmountChar(s);
    TrimmedSpaces(s, f);
    RunEndIs(s, GapStart(s), f, Space);
  }

  /** What `rstrip` takes off the prefix `s[..f]` is whitespace. */
  lemma TrimmedSpaces(s: string, f: nat)
    requires f <= |s|
    ensures forall k :: |TrimEnd(s[..f])| <= k < f ==> IsSpace(s[k])
  {
    var pre := s[..f];
    var l := |TrimEnd(pre)|;
    forall k | l <= k < f ensures IsSpace(s[k]) {
      assert s[k] == pre[l..][k - l];
    }
  }

  /** The character at the gap is whitespace or the first digit or comma. */
  lemma GapChar(s: string)
    requires FirstAmountChar(s) < |s|
    ensures IsSpace(s[GapStart(s)]) || InClass(s[GapStart(s)], DigitOrComma)
  {
    var f := FirstAmountChar(s);
    var l := GapStart(s);
    if l < f {
      var pre := s[..f];
      assert AllSpace(pre[l..]);
      assert s[l] == pre[l..][0];
    }
  }

  /** With no symbol before the gap, the engine has no symbol to try at the gap. */
  lemma ChoicesAtGap(s: string)
    requires FirstAmountChar(s) < |s| && SymbolEndingAt(s, GapStart(s)).None?
    ensures SymbolChoices(s, GapStart(s)) == [None]
  {
    GapChar(s);
    NoSymbolAtInertChar(s, GapStart(s));
  }

  lemma NoSymbolAtInertChar(s: string, i: nat)
    requires i < |s| && (IsSpace(s[i]) || InClass(s[i], DigitOrComma))
    ensures SymbolChoices(s, i) == [None]
  {
  }

  /** With a symbol before the gap, the engine tries that symbol first. */
  lemma ChoicesAtSymbol(s: string)
    requires FirstAmountChar(s) < |s| && SymbolEndingAt(s, GapStart(s)).Some?
    ensures SymbolChoices(s, ReadingStart(s))[0] == SymbolEndingAt(s, GapStart(s))
  {
    var l := GapStart(s);
    GapChar(s);
    SymbolBeforeInert(s, l, SymbolEndingAt(s, l).value);
  }

  /** A symbol that ends just before whitespace or a digit or comma is the first choice where it starts. */
  lemma SymbolBeforeInert(s: string, l: nat, sym: Symbol)
    requires l < |s| && SymbolEndingAt(s, l) == Some(sym)
    requires IsSpace(s[l]) || InClass(s[l], DigitOrComma)
    ensures SymbolChoices(s, SymbolStart(l, Some(sym)))[0] == Some(sym)
  {
    var t := SymbolText(sym);
    assert EndsAt(s, t, l);
    SymbolFirstChoice(s, l - |t|, sym);
  }

  /** A symbol followed by whitespace or a digit or comma is the engine's first choice. */
  lemma SymbolFirstChoice(s: string, i: nat, sym: Symbol)
    requires OccursAt(s, SymbolText(sym), i)
    requires i + |SymbolText(sym)| < |s|
    requires IsSpace(s[i + |SymbolText(sym)|]) || InClass(s[i + |SymbolText(sym)|], DigitOrComma)
    ensures SymbolChoices(s, i)[0] == Some(sym)
  {
    SymbolCharsAt(s, i, sym);
  }

  /** Started where the reference reading says, the engine finds that reading. */
  lemma MatchAtReadingStart(s: string)
    requires FirstAmountChar(s) < |s|
    ensures ReadingStart(s) <= |s|
    ensures MatchAt(s, ReadingStart(s)) == FirstDigitReading(s)
  {
    var l := GapStart(s);
    var sym := SymbolEndingAt(s, l);
    var i := ReadingStart(s);
    GapRunEndsAtAmount(s);
    if sym.None? {
      ChoicesAtGap(s);
    } else {
      ChoicesAtSymbol(s);
    }
    var cs := SymbolChoices(s, i);
    assert SymbolEnd(i, cs[0]) == l;
    assert MatchWith(s, i, cs[0]) == FirstDigitReading(s);
  }

  /** No start position left of the reference reading's start yields a match. */
  lemma NoEarlierMatch(s: string, i: nat)
    requires FirstAmountChar(s) < |s| && i < ReadingStart(s)
    ensures MatchAt(s, i) == None
  {
    if MatchAt(s, i).Some? {
      MatchBeforeFirstDigit(s, i, MatchAt(s, i).value);
    }
  }

  /** No start position yields a match when `s` has no digit or comma. */
  lemma NoMatchWithoutAmountChar(s: string, i: nat)
    requires FirstAmountChar(s) == |s| && i <= |s|
    ensures MatchAt(s, i) == None
  {
  }

  lemma {:induction false} SearchFromNone(s: string, i: nat)
    requires FirstAmountChar(s) == |s| && i <= |s|
    ensures Search(s, i) == None
    decreases |s| - i
  {
    NoMatchWithoutAmountChar(s, i);
    if i < |s| { SearchFromNone(s, i + 1); }
  }

  lemma {:induction false} SearchFromSome(s: string, i: nat)
    requires FirstAmountChar(s) < |s| && i <= ReadingStart(s)
    ensures Search(s, i) == FirstDigitReading(s)
    decreases ReadingStart(s) - i
  {
    if i < ReadingStart(s) {
      NoEarlierMatch(s, i);
      SearchFromSome(s, i + 1);
    } else {
      MatchAtReadingStart(s);
    }
  }

  /**
   * The leftmost match the engine finds is the reference reading: the
   * amount starts at the first digit or comma, the symbol is the one that
   * immediately precedes it up to whitespace, and there is no match at all
   * exactly when `s` has no digit and no comma.
   */
  lemma SearchIsFirstDigitReading(s: string)
    ensures Search(s, 0) == FirstDigitReading(s)
    ensures Search(s, 0).None? <==> forall k :: 0 <= k < |s| ==> !InClass(s[k], DigitOrComma)
  {
    if FirstAmountChar(s) == |s| {
      SearchFromNone(s, 0);
    } else {
      SearchFromSome(s, 0);
    }
  }

  // ---------------------------------------------------------------------
  // What `process_price` computes for one price text
  // ---------------------------------------------------------------------

  /** Removing the commas from a `[\d,]*` text leaves its digits, and some are left iff it had one. */
  lemma {:induction false} CommasRemoved(p: string)
    requires forall k :: 0 <= k < |p| ==> InClass(p[k], DigitOrComma)
    ensures forall k :: 0 <= k < |RemoveAll(p, ',')| ==> IsDigit(RemoveAll(p, ',')[k])
    ensures RemoveAll(p, ',') != [] <==> HasDigit(p)
  {
    var r := RemoveAll(p, ',');
    forall k | 0 <= k < |r| ensures IsDigit(r[k]) {
      assert r[k] in r;
    }
    if HasDigit(p) {
      var k :| 0 <= k < |p| && IsDigit(p[k]);
      assert p[k] in r;
    }
    if r != [] {
      assert r[0] in p;
    }
  }

  lemma ToDecimalOfDigits(r: string)
    requires forall k :: 0 <= k < |r| ==> IsDigit(r[k])
    ensures ToDecimal(r) == if r == [] then None else Some(Decimal(r, ""))
  {
    RunEndIs(r, 0, |r|, Digit);
  }

  lemma ToDecimalOfDotted(r: string, q: string)
    requires forall k :: 0 <= k < |r| ==> IsDigit(r[k])
    requires forall k :: 0 <= k < |q| ==> IsDigit(q[k])
    ensures ToDecimal(r + "." + q) == if r == [] && q == [] then None else Some(Decimal(r, q))
  {
    var t := r + "." + q;
    assert forall k :: 0 <= k < |r| ==> t[k] == r[k];
    assert t[|r|] == '.';
    assert forall k :: |r| + 1 <= k < |t| ==> t[k] == q[k - |r| - 1];
    RunEndIs(t, 0, |r|, Digit);
    RunEndIs(t, |r| + 1, |t|, Digit);
    assert t[..|r|] == r && t[|r| + 1..] == q;
  }

  /** The captured amount, read once its commas are removed, is NaN iff it has no digit. */
  lemma CapturedAmount(s: string, f: nat)
    requires f < |s| && InClass(s[f], DigitOrComma)
    ensures ToDecimal(RemoveAll(s[f..AmountEnd(s, f)], ',')).None? <==> !HasDigit(s[f..AmountEnd(s, f)])
  {
    var a := RunEnd(s, f, DigitOrComma);
    if a < |s| && s[a] == '.' {
      CapturedWithDot(s, f, a);
    } else {
      CapturedWithoutDot(s, f, a);
    }
  }

  lemma CapturedWithoutDot(s: string, f: nat, a: nat)
    requires f < |s| && a == RunEnd(s, f, DigitOrComma) && !(a < |s| && s[a] == '.')
    ensures ToDecimal(RemoveAll(s[f..AmountEnd(s, f)], ',')).None? <==> !HasDigit(s[f..AmountEnd(s, f)])
  {
    RunEndIs(s, a, a, Digit);
    assert AmountEnd(s, f) == a;
    CommasRemoved(s[f..a]);
    ToDecimalOfDigits(RemoveAll(s[f..a], ','));
  }

  lemma CapturedWithDot(s: string, f: nat, a: nat)
    requires f < |s| && a == RunEnd(s, f, DigitOrComma) && a < |s| && s[a] == '.'
    ensures ToDecimal(RemoveAll(s[f..AmountEnd(s, f)], ',')).None? <==> !HasDigit(s[f..AmountEnd(s, f)])
  {
    var e := AmountEnd(s, f);
    var p, q := s[f..a], s[a + 1..e];
    DottedText(s, f, a);
    CommasRemoved(p);
    ToDecimalOfDotted(RemoveAll(p, ','), q);
    DottedHasDigit(p, q);
  }

  predicate AllDigits(t: string)
  {
    forall k :: 0 <= k < |t| ==> IsDigit(t[k])
  }

  /** A captured amount with a point: digits and commas, the point, digits. */
  lemma DottedText(s: string, f: nat, a: nat)
    requires f < |s| && a == RunEnd(s, f, DigitOrComma) && a < |s| && s[a] == '.'
    ensures var e := AmountEnd(s, f);
      a < e && s[f..e] == s[f..a] + "." + s[a + 1..e] &&
      AllDigits(s[a + 1..e]) &&
      RemoveAll(s[f..e], ',') == RemoveAll(s[f..a], ',') + "." + s[a + 1..e]
  {
    var e := AmountEnd(s, f);
    var p, q := s[f..a], s[a + 1..e];
    assert s[f..e] == p + "." + q;
    assert forall k :: 0 <= k < |q| ==> IsDigit(q[k]);
    RemoveDot(p, q);
  }

  /** Removing commas around a point that separates digits from a comma-free text. */
  lemma RemoveDot(p: string, q: string)
    requires ',' !in q
    ensures RemoveAll(p + "." + q, ',') == RemoveAll(p, ',') + "." + q
  {
    RemoveAllAppend(p + ".", q, ',');
    RemoveAllAppend(p, ".", ',');
    assert RemoveAll(".", ',') == ".";
  }

  lemma DottedHasDigit(p: string, q: string)
    requires forall k :: 0 <= k < |q| ==> IsDigit(q[k])
    ensures HasDigit(p + "." + q) <==> HasDigit(p) || q != []
  {
    var t := p + "." + q;
    if HasDigit(t) && !HasDigit(p) {
      var k :| 0 <= k < |t| && IsDigit(t[k]);
    }
    if q != [] {
      assert t[|p| + 1] == q[0];
    }
    if HasDigit(p) {
      var k :| 0 <= k < |p| && IsDigit(p[k]);
      assert t[k] == p[k];
    }
  }

  /**
   * The amount is the text from the first digit or comma that `[\d,]+\.?\d*`
   * spans, commas removed, read as a decimal; it is NaN when `s` has no
   * digit and no comma, or when that text has no digit.
   */
  lemma AmountRule(s: string)
    ensures var f := FirstAmountChar(s);
      ParsePrice(Some(s)).amount == if f == |s| then None else ToDecimal(RemoveAll(s[f..AmountEnd(s, f)], ','))
    ensures var f := FirstAmountChar(s);
      ParsePrice(Some(s)).amount.None? <==> f == |s| || !HasDigit(s[f..AmountEnd(s, f)])
  {
    SearchIsFirstDigitReading(s);
    var f := FirstAmountChar(s);
    if f < |s| {
      CapturedAmount(s, f);
    }
  }

  /**
   * The unit is the letter run after an optional-whitespace `/` that
   * directly follows the amount, and `None` otherwise.
   */
  lemma UnitRule(s: string)
    ensures var f := FirstAmountChar(s);
      ParsePrice(Some(s)).unit == if f == |s| then None else UnitAfter(s, AmountEnd(s, f))
  {
    SearchIsFirstDigitReading(s);
  }

  /**
   * The currency comes from the symbol just before the amount, even when
   * the amount is NaN; without a symbol it is `INR` exactly when an amount
   * was read; with no digit or comma at all it is `None`.
   */
  lemma CurrencyRule(s: string)
    ensures var sym := SymbolEndingAt(s, GapStart(s));
            var r := ParsePrice(Some(s));
      r.currency ==
        if FirstAmountChar(s) == |s| then None
        else if sym.Some? then Some(CurrencyOf(sym.value))
        else if r.amount.Some? then Some("INR")
        else None
  {
    SearchIsFirstDigitReading(s);
  }

  /** The first digit or comma sits at `f`. */
  lemma FirstAmountCharIs(s: string, f: nat)
    requires f < |s| && InClass(s[f], DigitOrComma)
    requires forall k :: 0 <= k < f ==> !InClass(s[k], DigitOrComma)
    ensures FirstAmountChar(s) == f
  {
  }

  /** The whitespace gap before the first digit or comma starts at `l`. */
  lemma GapStartIs(s: string, l: nat)
    requires l <= FirstAmountChar(s) && AllSpace(s[l..FirstAmountChar(s)])
    requires l == 0 || !IsSpace(s[l - 1])
    ensures GapStart(s) == l
  {
    if l == 0 {
      SpaceRunInGap(s, l);
    } else {
      NonSpaceBeforeGap(s, l);
    }
  }

  /**
   * The three rules together: once the first digit or comma, the start of
   * the gap before it and the end of the amount are known, the parse is
   * determined.
   */
  lemma ReadingOf(s: string, f: nat, l: nat, e: nat)
    requires f < |s| && FirstAmountChar(s) == f && GapStart(s) == l && AmountEnd(s, f) == e
    ensures var amount := ToDecimal(RemoveAll(s[f..e], ','));
            var sym := SymbolEndingAt(s, l);
      ParsePrice(Some(s)) ==
        PriceFields(amount, UnitAfter(s, e),
          if sym.Some? then Some(CurrencyOf(sym.value)) else if amount.Some? then Some("INR") else None)
  {
    AmountRule(s);
    UnitRule(s);
    CurrencyRule(s);
  }

  /** Removing the one comma of `a + "," + b`. */
  lemma RemoveOneComma(a: string, b: string)
    requires ',' !in a && ',' !in b
    ensures RemoveAll(a + "," + b, ',') == a + b
  {
    assert RemoveAll(a + ",", ',') == a by {
      RemoveAllAppend(a, ",", ',');
      assert RemoveAll(",", ',') == "";
    }
    RemoveAllAppend(a + ",", b, ',');
  }

  // ---------------------------------------------------------------------
  // Worked examples
  // ---------------------------------------------------------------------

  lemma RupeeWithUnitFacts(s: string)
    requires s == "\U{20B9} 1,200.50/Meter"
    ensures FirstAmountChar(s) == 2 && GapStart(s) == 1 && SymbolEndingAt(s, 1) == Some(Rupee)
  {
    FirstAmountCharIs(s, 2);
    GapStartIs(s, 1);
  }

  lemma RupeeWithUnitSpans(s: string)
    requires s == "\U{20B9} 1,200.50/Meter"
    ensures AmountEnd(s, 2) == 10 && UnitAfter(s, 10) == Some("Meter")
  {
    RunEndIs(s, 2, 7, DigitOrComma);
    RunEndIs(s, 8, 10, Digit);
    RunEndIs(s, 10, 10, Space);
    RunEndIs(s, 11, 11, Space);
    RunEndIs(s, 11, 16, Letter);
    assert s[11..16] == "Meter";
  }

  lemma RupeeWithUnitAmount(s: string)
    requires s == "\U{20B9} 1,200.50/Meter"
    ensures ToDecimal(RemoveAll(s[2..10], ',')) == Some(Decimal("1200", "50"))
  {
    assert s[2..10] == "1" + "," + "200.50";
    RemoveOneComma("1", "200.50");
    assert "1" + "200.50" == "1200" + "." + "50";
    ToDecimalOfDotted("1200", "50");
  }

  /** `"₹ 1,200.50/Meter"` reads as 1200.50 per Meter in INR. */
  lemma ExampleRupeeWithUnit(s: string)
    requires s == "\U{20B9} 1,200.50/Meter"
    ensures ParsePrice(Some(s)) == PriceFields(Some(Decimal("1200", "50")), Some("Meter"), Some("INR"))
  {
    RupeeWithUnitFacts(s);
    RupeeWithUnitSpans(s);
    RupeeWithUnitAmount(s);
    ReadingOf(s, 2, 1, 10);
  }

  lemma RsDotFacts(s: string)
    requires s == "Rs. 499/Piece"
    ensures FirstAmountChar(s) == 4 && GapStart(s) == 3 && SymbolEndingAt(s, 3) == Some(RsDot)
  {
    FirstAmountCharIs(s, 4);
    GapStartIs(s, 3);
  }

  lemma RsDotSpans(s: string)
    requires s == "Rs. 499/Piece"
    ensures AmountEnd(s, 4) == 7 && UnitAfter(s, 7) == Some("Piece")
  {
    RunEndIs(s, 4, 7, DigitOrComma);
    RunEndIs(s, 7, 7, Digit);
    RunEndIs(s, 7, 7, Space);
    RunEndIs(s, 8, 8, Space);
    RunEndIs(s, 8, 13, Letter);
    assert s[8..13] == "Piece";
  }

  lemma RsDotAmount(s: string)
    requires s == "Rs. 499/Piece"
    ensures ToDecimal(RemoveAll(s[4..7], ',')) == Some(Decimal("499", ""))
  {
    assert s[4..7] == "499";
    ToDecimalOfDigits("499");
  }

  /** `"Rs. 499/Piece"`: the longer alternative `Rs.` is the one captured. */
  lemma ExampleRsDot(s: string)
    requires s == "Rs. 499/Piece"
    ensures ParsePrice(Some(s)) == PriceFields(Some(Decimal("499", "")), Some("Piece"), Some("INR"))
  {
    RsDotFacts(s);
    RsDotSpans(s);
    RsDotAmount(s);
    ReadingOf(s, 4, 3, 7);
  }

  lemma DollarFacts(s: string)
    requires s == "$50"
    ensures FirstAmountChar(s) == 1 && GapStart(s) == 1 && SymbolEndingAt(s, 1) == Some(Dollar)
    ensures AmountEnd(s, 1) == 3 && UnitAfter(s, 3) == None
  {
    FirstAmountCharIs(s, 1);
    GapStartIs(s, 1);
    RunEndIs(s, 1, 3, DigitOrComma);
    RunEndIs(s, 3, 3, Digit);
    RunEndIs(s, 3, 3, Space);
  }

  /** `"$50"` reads as 50 USD with no unit. */
  lemma ExampleDollar(s: string)
    requires s == "$50"
    ensures ParsePrice(Some(s)) == PriceFields(Some(Decimal("50", "")), None, Some("USD"))
  {
    DollarFacts(s);
    assert s[1..3] == "50";
    ToDecimalOfDigits("50");
    ReadingOf(s, 1, 1, 3);
  }

  lemma EuroFacts(s: string)
    requires s == "\U{20AC}75.25"
    ensures FirstAmountChar(s) == 1 && GapStart(s) == 1 && SymbolEndingAt(s, 1) == Some(Euro)
    ensures AmountEnd(s, 1) == 6 && UnitAfter(s, 6) == None
  {
    FirstAmountCharIs(s, 1);
    GapStartIs(s, 1);
    RunEndIs(s, 1, 3, DigitOrComma);
    RunEndIs(s, 4, 6, Digit);
    RunEndIs(s, 6, 6, Space);
  }

  lemma EuroAmount(s: string)
    requires s == "\U{20AC}75.25"
    ensures ToDecimal(RemoveAll(s[1..6], ',')) == Some(Decimal("75", "25"))
  {
    assert s[1..6] == "75" + "." + "25";
    ToDecimalOfDotted("75", "25");
  }

  /** `"€75.25"` reads as 75.25 EUR. */
  lemma ExampleEuro(s: string)
    requires s == "\U{20AC}75.25"
    ensures ParsePrice(Some(s)) == PriceFields(Some(Decimal("75", "25")), None, Some("EUR"))
  {
    EuroFacts(s);
    EuroAmount(s);
    ReadingOf(s, 1, 1, 6);
  }

  lemma BareNumberFacts(s: string)
    requires s == "1500"
    ensures FirstAmountChar(s) == 0 && GapStart(s) == 0 && SymbolEndingAt(s, 0) == None
    ensures AmountEnd(s, 0) == 4 && UnitAfter(s, 4) == None
  {
    FirstAmountCharIs(s, 0);
    GapStartIs(s, 0);
    RunEndIs(s, 0, 4, DigitOrComma);
    RunEndIs(s, 4, 4, Digit);
    RunEndIs(s, 4, 4, Space);
  }

  /** `"1500"`: no symbol, so the currency defaults to INR. */
  lemma ExampleBareNumber(s: string)
    requires s == "1500"
    ensures ParsePrice(Some(s)) == PriceFields(Some(Decimal("1500", "")), None, Some("INR"))
  {
    BareNumberFacts(s);
    assert s[0..4] == s;
    ToDecimalOfDigits(s);
    ReadingOf(s, 0, 0, 4);
  }

  /** `"Contact for Price"` has no digit or comma: nothing is read. */
  lemma ExampleNoPrice(s: string)
    requires s == "Contact for Price"
    ensures ParsePrice(Some(s)) == PriceFields(None, None, None)
  {
    assert forall k :: 0 <= k < |s| ==> !InClass(s[k], DigitOrComma);
    SearchIsFirstDigitReading(s);
  }

  lemma CommaOnlyFacts(s: string)
    requires s == "\U{20B9} ,"
    ensures FirstAmountChar(s) == 2 && GapStart(s) == 1 && SymbolEndingAt(s, 1) == Some(Rupee)
    ensures AmountEnd(s, 2) == 3 && UnitAfter(s, 3) == None
  {
    FirstAmountCharIs(s, 2);
    GapStartIs(s, 1);
    RunEndIs(s, 2, 3, DigitOrComma);
    RunEndIs(s, 3, 3, Digit);
    RunEndIs(s, 3, 3, Space);
  }

  /** `"₹ ,"`: the amount is NaN, yet the captured symbol still sets the currency. */
  lemma ExampleCommaOnly(s: string)
    requires s == "\U{20B9} ,"
    ensures ParsePrice(Some(s)) == PriceFields(None, None, Some("INR"))
  {
    CommaOnlyFacts(s);
    assert s[2..3] == ",";
    assert RemoveAll(",", ',') == "";
    ReadingOf(s, 2, 1, 3);
  }

  lemma FirstNumberFacts(s: string)
    requires s == "Min 10, \U{20B9}500/Piece"
    ensures FirstAmountChar(s) == 4 && GapStart(s) == 3 && SymbolEndingAt(s, 3) == None
  {
    FirstAmountCharIs(s, 4);
    GapStartIs(s, 3);
  }

  lemma FirstNumberSpans(s: string)
    requires s == "Min 10, \U{20B9}500/Piece"
    ensures AmountEnd(s, 4) == 7 && UnitAfter(s, 7) == None
  {
    RunEndIs(s, 4, 7, DigitOrComma);
    RunEndIs(s, 7, 7, Digit);
    RunEndIs(s, 7, 8, Space);
  }

  lemma FirstNumberAmount(s: string)
    requires s == "Min 10, \U{20B9}500/Piece"
    ensures ToDecimal(RemoveAll(s[4..7], ',')) == Some(Decimal("10", ""))
  {
    assert s[4..7] == "10" + "," + "";
    RemoveOneComma("10", "");
    assert "10" + "" == "10";
    ToDecimalOfDigits("10");
  }

  /**
   * `"Min 10, ₹500/Piece"`: the search stops at the first number, so the
   * later symbol, amount and unit are never seen.
   */
  lemma ExampleFirstNumber(s: string)
    requires s == "Min 10, \U{20B9}500/Piece"
    ensures ParsePrice(Some(s)) == PriceFields(Some(Decimal("10", "")), None, Some("INR"))
  {
    FirstNumberFacts(s);
    FirstNumberSpans(s);
    FirstNumberAmount(s);
    ReadingOf(s, 4, 3, 7);
  }

}
