/**
 * `parseAmount`, the accounting-style currency reader inside `parseCSV`:
 * `$` and `,` are dropped, a value in parentheses is negative, and text that
 * does not read as a number counts as `0` -- except inside parentheses, where
 * there is no such fallback and the result is NaN (`None`).
 */
module Amount {
  import opened Wrappers
  import opened JsNumber

  /** `str.replace(/[$,]/g, '')`. */
  function StripCurrency(s: string): (r: string)
    ensures |r| <= |s|
  {
    if s == [] then []
    else (if s[0] == '$' || s[0] == ',' then [] else [s[0]]) + StripCurrency(s[1..])
  }

  /** `clean.startsWith('(') && clean.endsWith(')')`. */
  predicate IsParenthesised(clean: string) {
    |clean| >= 1 && clean[0] == '(' && clean[|clean| - 1] == ')'
  }

  /** `clean.slice(1, -1)`: empty when there is no character between the two ends. */
  function Inner(clean: string): (r: string)
    ensures |clean| >= 2 ==> clean == clean[..1] + r + clean[|clean| - 1..]
  {
    if |clean| >= 2 then clean[1..|clean| - 1] else ""
  }

  /** `x || 0` on the result of `parseFloat`: NaN (and zero) become `0`. */
  function OrZero(x: Option<real>): real {
    match x
    case None => 0.0
    case Some(v) => v
  }

  /** `parseAmount(str)`; `None` is NaN, which only the parenthesised form can give. */
  function ParseAmount(str: string): (r: Option<real>)
    ensures r.None? ==> IsParenthesised(StripCurrency(str))
  {
    if str == [] then Some(0.0)
    else
      var clean := StripCurrency(str);
      if IsParenthesised(clean) then Negate(ParseFloat(Inner(clean)))
      else Some(OrZero(ParseFloat(clean)))
  }

  // ---------------------------------------------------------------------------
  // What parseAmount promises
  // ---------------------------------------------------------------------------

  lemma {:induction false} StripConcat(a: string, b: string)
    ensures StripCurrency(a + b) == StripCurrency(a) + StripCurrency(b)
    decreases |a|
  {
    if a == [] {
      assert a + b == b;
    } else {
      assert (a + b)[1..] == a[1..] + b;
      StripConcat(a[1..], b);
    }
  }

  /** Text without `$` or `,` is left as it is. */
  lemma {:induction false} StripNone(s: string)
    requires forall k | 0 <= k < |s| :: s[k] != '$' && s[k] != ','
    ensures StripCurrency(s) == s
    decreases |s|
  {
    if s != [] {
      StripNone(s[1..]);
    }
  }

  /** No `$` or `,` survives the stripping, and every other character survives as
      often as it occurs. */
  lemma {:induction false} StripClean(s: string)
    ensures forall k | 0 <= k < |StripCurrency(s)| :: StripCurrency(s)[k] != '$' && StripCurrency(s)[k] != ','
    ensures forall c | c != '$' && c != ',' :: multiset(StripCurrency(s))[c] == multiset(s)[c]
    decreases |s|
  {
    if s != [] {
      StripClean(s[1..]);
      assert s == [s[0]] + s[1..];
    }
  }

  /** Stripping twice is stripping once. */
  lemma StripIdempotent(s: string)
    ensures StripCurrency(StripCurrency(s)) == StripCurrency(s)
  {
    StripClean(s);
    StripNone(StripCurrency(s));
  }

  /** `$` and `,` make no difference anywhere in the text. */
  lemma AmountStripped(s: string)
    ensures ParseAmount(StripCurrency(s)) == ParseAmount(s)
  {
    StripIdempotent(s);
    if s != [] && StripCurrency(s) == [] {
      assert ParseFloat([]) == None;
    }
  }

  /** Parentheses negate: whatever stands between them, currency signs removed, is
      read by `parseFloat` and its sign flipped, with no fallback for NaN. */
  lemma AmountParenthesised(x: string)
    ensures ParseAmount("(" + x + ")") == Negate(ParseFloat(StripCurrency(x)))
  {
    StripConcat("(" + x, ")");
    StripConcat("(", x);
    assert StripCurrency("(") == "(" && StripCurrency(")") == ")";
    AmountNegated("(" + x + ")", StripCurrency(x));
  }

  /** NaN exactly when the stripped text is parenthesised and its inside is no number. */
  lemma AmountNaN(s: string)
    ensures ParseAmount(s).None? <==>
            s != [] && IsParenthesised(StripCurrency(s)) &&
            ParseFloat(Inner(StripCurrency(s))).None?
  {
  }

  /** Without parentheses, an amount is never NaN: it is the number `parseFloat`
      reads, or `0`. */
  lemma AmountPlain(s: string)
    requires !IsParenthesised(StripCurrency(s))
    ensures ParseAmount(s) == Some(OrZero(ParseFloat(StripCurrency(s))))
  {
    if s == [] {
      assert ParseFloat([]) == None;
    }
  }

  /** A dollar amount with thousands separators: the digits, read as a decimal. */
  lemma AmountDecimal(s: string, d: string, f: string)
    requires StripCurrency(s) == d + "." + f
    requires d != [] && AllDigits(d) && AllDigits(f)
    ensures ParseAmount(s) == Some(DecimalValue(d, f))
  {
    assert (d + "." + f)[0] == d[0];
    assert d + "." + f + [] == d + "." + f;
    ParseFloatDecimal(d, f, []);
  }

  /** Whenever the stripped text is `(m)`, the amount is the negation of what
      `parseFloat` reads from `m`, NaN included. */
  lemma {:induction false} AmountNegated(s: string, m: string)
    requires StripCurrency(s) == "(" + m + ")"
    ensures ParseAmount(s) == Negate(ParseFloat(m))
  {
    InnerOf(m);
  }

  lemma InnerOf(m: string)
    ensures IsParenthesised("(" + m + ")") && Inner("(" + m + ")") == m
  {
    var clean := "(" + m + ")";
    assert clean[1..|clean| - 1] == m;
  }

  // ---------------------------------------------------------------------------
  // Worked values
  // ---------------------------------------------------------------------------

  /** Parentheses, a dollar sign and a thousands separator together: `"($1,2)"` is
      `-12`. */
  lemma AmountAccountingExample()
    ensures ParseAmount("($1,2)") == Some(-12.0)
  {
    assert StripCurrency("($1,2)") == "(" + "12" + ")";
    AmountNegated("($1,2)", "12");
    assert DigitsValue("12") == 12 by {
      assert "12"[..1] == "1" && "1"[..0] == "";
    }
    assert "12" + "" == "12";
    ParseFloatInteger("12", "");
  }

  /** A dollar sign alone is dropped. */
  lemma AmountDollarExample()
    ensures ParseAmount("$5.5") == Some(5.5)
  {
    assert StripCurrency("$5.5") == "5" + "." + "5";
    assert DecimalValue("5", "5") == 5.5 by {
      assert "5"[..0] == "" && "5"[1..] == "";
    }
    AmountDecimal("$5.5", "5", "5");
  }

  /** Empty parentheses give NaN: the parenthesised branch has no fallback. */
  lemma AmountNaNExample()
    ensures ParseAmount("()") == None
  {
    assert "(" + "" + ")" == "()";
    assert StripCurrency("") == "" && ParseFloat("") == None;
    AmountParenthesised("");
  }

  /** Unparenthesised text that is no number counts as `0`. */
  lemma AmountFallbackExample()
    ensures ParseAmount("N/A") == Some(0.0)
  {
    assert StripCurrency("N/A") == "N/A";
    ParseFloatNaNExample();
  }
}
