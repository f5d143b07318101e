/** Which version labels `create_version` can count on from (apps/bim/services.py, the
    default label): those that Python's `float` reads once every "v" is removed. What the
    reading gives and how it is written again is a parameter. */
module VersionLabels {
  import opened Text

  /** `label.replace('v', '')`. */
  function WithoutV(name: string): string {
    if name == "" then ""
    else if name[0] == 'v' then WithoutV(name[1..])
    else [name[0]] + WithoutV(name[1..])
  }

  /** What is left after the digits at the front; an underscore may stand between two. */
  function AfterDigits(s: string): (rest: string)
    ensures |rest| <= |s|
    ensures s != "" && IsDigit(s[0]) ==> |rest| < |s|
    decreases |s|
  {
    if s == "" || !IsDigit(s[0]) then s
    else if |s| > 2 && s[1] == '_' && IsDigit(s[2]) then AfterDigits(s[2..])
    else AfterDigits(s[1..])
  }

  predicate StartsWithDigit(s: string) {
    s != "" && IsDigit(s[0])
  }

  function AfterSign(s: string): string {
    if s != "" && (s[0] == '+' || s[0] == '-') then s[1..] else s
  }

  /** Nothing, or an exponent. */
  predicate IsExponent(s: string) {
    s == "" || (LowerChar(s[0]) == 'e' && StartsWithDigit(AfterSign(s[1..])) && AfterDigits(AfterSign(s[1..])) == "")
  }

  /** Digits with an optional point, or a point and digits, then an optional exponent. */
  predicate IsNumber(s: string) {
    if StartsWithDigit(s) then
      var rest := AfterDigits(s);
      if rest != "" && rest[0] == '.' then IsExponent(AfterDigits(rest[1..])) else IsExponent(rest)
    else
      s != "" && s[0] == '.' && StartsWithDigit(s[1..]) && IsExponent(AfterDigits(s[1..]))
  }

  /** The strings `float` reads. */
  predicate IsFloat(s: string) {
    var body := AfterSign(Trim(s));
    IsNumber(body) || Lower(body) in {"inf", "infinity", "nan"}
  }

  predicate Numeric(name: string) {
    IsFloat(WithoutV(name))
  }

  /** Labels counted on are numeric themselves: "v", a number and one decimal. */
  ghost predicate StaysNumeric(bump: string -> string) {
    forall name :: Numeric(name) ==> Numeric(bump(name))
  }

  lemma LabelV10()
    ensures Numeric("v1.0")
  {
    var s := "1.0";
    assert WithoutV("v1.0") == s by {
      assert "v1.0"[1..] == s;
      KeptWithoutV(s);
    }
    assert Trim(s) == s;
    assert s[1..] == ".0" && s[1..][1..] == "0";
    assert AfterDigits(s) == ".0";
    assert AfterDigits("0") == "";
  }

  lemma LabelRevA()
    ensures !Numeric("Rev A") && !Numeric("")
  {
    var s := WithoutV("Rev A");
    assert "Rev A"[1..] == "ev A";
    assert s == "R" + WithoutV("ev A");
    assert "ev A"[1..] == "v A" && "v A"[1..] == " A" && " A"[1..] == "A" && "A"[1..] == "";
    assert WithoutV("A") == "A";
    assert WithoutV(" A") == " A";
    assert WithoutV("v A") == " A";
    assert WithoutV("ev A") == "e A";
    assert s == "Re A";
    assert Trim(s) == s;
    assert Lower(s)[0] == 'r';
    assert Lower("") == "";
  }

  /** A label without a "v" is read as it stands. */
  lemma {:induction false} KeptWithoutV(s: string)
    requires 'v' !in s
    ensures WithoutV(s) == s
  {
    if s != "" {
      KeptWithoutV(s[1..]);
    }
  }

  // ---------- numbered labels ----------

  lemma {:induction false} DigitsAreRead(s: string, rest: string)
    requires AllDigits(s) && (rest == "" || (!IsDigit(rest[0]) && rest[0] != '_'))
    ensures AfterDigits(s + rest) == rest
  {
    if s != "" {
      assert (s + rest)[1..] == s[1..] + rest;
      DigitsAreRead(s[1..], rest);
      assert |s + rest| > 1 ==> (s + rest)[1] == if |s| > 1 then s[1] else rest[0];
    } else {
      assert s + rest == rest;
    }
  }

  /** "v" and a whole number, or two whole numbers with a point between, is always a label
      that can be counted on from; so is the number without the "v". */
  lemma NumberedLabels(m: nat, n: nat)
    ensures Numeric(Decimal(m)) && Numeric("v" + Decimal(m))
    ensures Numeric(Decimal(m) + "." + Decimal(n)) && Numeric("v" + Decimal(m) + "." + Decimal(n))
  {
    WholeIsNumeric(Decimal(m));
    PointIsNumeric(Decimal(m), Decimal(n));
    Regroup("v", Decimal(m), ".", Decimal(n));
  }

  lemma Regroup(a: string, b: string, c: string, d: string)
    ensures a + b + c + d == a + (b + c + d)
  {}

  lemma WholeIsNumeric(whole: string)
    requires whole != "" && AllDigits(whole)
    ensures Numeric(whole) && Numeric("v" + whole)
  {
    assert whole + "" == whole;
    NumberIsRead(whole, "");
    DigitsAreRead(whole, "");
  }

  lemma PointIsNumeric(whole: string, part: string)
    requires whole != "" && AllDigits(whole) && part != "" && AllDigits(part)
    ensures Numeric(whole + "." + part) && Numeric("v" + (whole + "." + part))
  {
    var tail := "." + part;
    assert whole + tail == whole + "." + part && tail[1..] == part;
    NumberIsRead(whole, tail);
    DigitsAreRead(whole, tail);
    assert part + "" == part;
    DigitsAreRead(part, "");
    assert IsNumber(whole + tail);
  }

  /** A text of digits and at most a point and digits is what is left of it, with or without
      a "v" in front, and has neither sign nor blanks. */
  lemma NumberIsRead(whole: string, tail: string)
    requires whole != "" && AllDigits(whole)
    requires tail == "" || (|tail| > 1 && tail[0] == '.' && AllDigits(tail[1..]))
    ensures WithoutV(whole + tail) == whole + tail && WithoutV("v" + (whole + tail)) == whole + tail
    ensures AfterSign(Trim(whole + tail)) == whole + tail
  {
    var s := whole + tail;
    assert forall i :: 0 <= i < |s| ==> IsDigit(s[i]) || s[i] == '.' by {
      forall i | 0 <= i < |s| ensures IsDigit(s[i]) || s[i] == '.' {
        if i > |whole| {
          assert s[i] == tail[1..][i - |whole| - 1];
        }
      }
    }
    KeptWithoutV(s);
    assert ("v" + s)[1..] == s;
    assert IsDigit(s[0]);
    assert !IsSpace(s[|s| - 1]);
  }

  /** A label with no "v" and no blank at either end is read as a number, after at most one
      sign, or as one of the values Python names, in any case. */
  lemma PlainLabelExactly(name: string)
    requires 'v' !in name && Trim(name) == name
    ensures Numeric(name) <==>
      var body := if name != "" && (name[0] == '+' || name[0] == '-') then name[1..] else name;
      IsNumber(body) || Lower(body) == "inf" || Lower(body) == "infinity" || Lower(body) == "nan"
  {
    KeptWithoutV(name);
  }

  /** Digits may be followed by an exponent: an "e" in either case, at most one sign, and
      digits; and nothing may follow those. */
  lemma ExponentExactly(whole: string, tail: string)
    requires whole != "" && AllDigits(whole) && tail != "" && LowerChar(tail[0]) == 'e'
    ensures var digits := if |tail| > 1 && (tail[1] == '+' || tail[1] == '-') then tail[2..] else tail[1..];
      AllDigits(digits) ==> (IsNumber(whole + tail) <==> digits != "")
  {
    DigitsAreRead(whole, tail);
    var digits := if |tail| > 1 && (tail[1] == '+' || tail[1] == '-') then tail[2..] else tail[1..];
    assert AfterSign(tail[1..]) == digits;
    if AllDigits(digits) {
      assert digits + "" == digits;
      DigitsAreRead(digits, "");
    }
  }

  /** A point may lead when digits follow, and may end a number. */
  lemma PointExactly(whole: string, part: string)
    requires AllDigits(whole) && AllDigits(part)
    ensures IsNumber(whole + ("." + part)) <==> whole != "" || part != ""
  {
    var tail := "." + part;
    assert tail[1..] == part && part + "" == part;
    DigitsAreRead(part, "");
    if whole != "" {
      DigitsAreRead(whole, tail);
    } else {
      assert whole + tail == tail;
    }
  }

  /** An underscore is read only between two digits. */
  lemma UnderscoreExactly(whole: string, part: string)
    requires whole != "" && AllDigits(whole) && AllDigits(part)
    ensures IsNumber(whole + ("_" + part)) <==> part != ""
    ensures part != "" ==> IsNumber(whole + ("_" + (part + ".5")))
  {
    if part == "" {
      LoneUnderscore(whole);
    } else {
      assert part + "" == part;
      UnderscoreIsRead(whole, part, "");
      UnderscoreIsRead(whole, part, ".5");
      assert ".5"[1..] == "5" && "5"[1..] == "";
      assert AfterDigits("5") == "";
    }
  }

  lemma {:induction false} LoneUnderscore(whole: string)
    requires whole != "" && AllDigits(whole)
    ensures AfterDigits(whole + ("_" + "")) == "_"
  {
    var s := whole + ("_" + "");
    if |whole| > 1 {
      assert s[1..] == whole[1..] + ("_" + "") && s[1] == whole[1];
      LoneUnderscore(whole[1..]);
    } else {
      assert s[1..] == "_";
    }
  }

  lemma {:induction false} UnderscoreIsRead(whole: string, part: string, rest: string)
    requires whole != "" && AllDigits(whole) && part != "" && AllDigits(part)
    requires rest == "" || (!IsDigit(rest[0]) && rest[0] != '_')
    ensures AfterDigits(whole + ("_" + (part + rest))) == rest
  {
    var s := whole + ("_" + (part + rest));
    if |whole| > 1 {
      assert s[1..] == whole[1..] + ("_" + (part + rest)) && s[1] == whole[1];
      UnderscoreIsRead(whole[1..], part, rest);
    } else {
      assert s[2..] == part + rest;
      DigitsAreRead(part, rest);
    }
  }
}
