/**
 Placeholder rewriting (runinator-database/src/queries.rs): templates use `?`, and Postgres gets the
 ordinals `$1`, `$2`, ... instead. A statement means a sequence of characters and bind positions.
 Quoting is not interpreted on either side.
 */
module Render {
  datatype SqlDialect = Sqlite | Postgres | MySql

  datatype Token = Ch(c: char) | Bind(position: nat)

  predicate IsDigit(c: char) {
    '0' <= c <= '9'
  }

  /** `index.to_string()`. */
  function Decimal(n: nat): string {
    if n < 10 then ["0123456789"[n]] else Decimal(n / 10) + ["0123456789"[n % 10]]
  }

  function Rendered(sql: string, index: nat): string {
    if sql == "" then ""
    else if sql[0] == '?' then "$" + Decimal(index + 1) + Rendered(sql[1..], index + 1)
    else [sql[0]] + Rendered(sql[1..], index)
  }

  /** The rendering so far and the placeholders met so far determine the rest. */
  lemma {:induction false} RenderedSplits(sql: string, index: nat, n: nat)
    requires n <= |sql|
    ensures Rendered(sql, index) == Rendered(sql[..n], index) + Rendered(sql[n..], index + Placeholders(sql[..n]))
    decreases n
  {
    if n > 0 {
      assert sql[1..][..n - 1] == sql[..n][1..] && sql[1..][n - 1..] == sql[n..];
      RenderedSplits(sql[1..], if sql[0] == '?' then index + 1 else index, n - 1);
    } else {
      assert sql[n..] == sql;
    }
  }

  function Placeholders(sql: string): nat {
    if sql == "" then 0 else (if sql[0] == '?' then 1 else 0) + Placeholders(sql[1..])
  }

  method Render(dialect: SqlDialect, sql: string) returns (out: string)
    ensures out == if dialect.Postgres? then Rendered(sql, 0) else sql
  {
    match dialect
    case Postgres =>
      out := "";
      var index := 0;
      for i := 0 to |sql|
        invariant index == Placeholders(sql[..i])
        invariant out == Rendered(sql[..i], 0)
      {
        PlaceholdersGrow(sql, i);
        RenderedSplits(sql[..i + 1], 0, i);
        assert sql[..i + 1][..i] == sql[..i] && sql[..i + 1][i..] == [sql[i]];
        if sql[i] == '?' {
          index := index + 1;
          out := out + "$";
          out := out + Decimal(index);
        } else {
          out := out + [sql[i]];
        }
      }
      assert sql[..|sql|] == sql;
    case _ => out := sql;
  }

  lemma {:induction false} PlaceholdersGrow(sql: string, i: nat)
    requires i < |sql|
    ensures Placeholders(sql[..i + 1]) == Placeholders(sql[..i]) + if sql[i] == '?' then 1 else 0
    decreases i
  {
    if i > 0 {
      assert sql[1..][..i] == sql[..i + 1][1..] && sql[1..][..i - 1] == sql[..i][1..];
      PlaceholdersGrow(sql[1..], i - 1);
    }
  }

  // ---- what the two sides mean ----

  /** Positional reading: the n-th `?` takes the n-th bound value. */
  function Positional(sql: string, index: nat): seq<Token> {
    if sql == "" then []
    else if sql[0] == '?' then [Bind(index + 1)] + Positional(sql[1..], index + 1)
    else [Ch(sql[0])] + Positional(sql[1..], index)
  }

  function Leading(s: string): string {
    if s != "" && IsDigit(s[0]) then [s[0]] + Leading(s[1..]) else ""
  }

  function AfterLeading(s: string): (t: string)
    ensures |t| <= |s|
  {
    if s != "" && IsDigit(s[0]) then AfterLeading(s[1..]) else s
  }

  function Value(digits: string): nat
    requires forall c <- digits :: IsDigit(c)
  {
    if digits == "" then 0
    else
      assert IsDigit(digits[|digits| - 1]);
      Value(digits[..|digits| - 1]) * 10 + (digits[|digits| - 1] as int - '0' as int)
  }

  lemma LeadingAreDigits(s: string)
    ensures forall c <- Leading(s) :: IsDigit(c)
  {
  }

  predicate OrdinalAt(s: string) {
    |s| > 1 && s[0] == '$' && IsDigit(s[1])
  }

  /** Ordinal reading: `$` and all the digits after it take the value of that position. */
  function Ordinal(s: string): seq<Token>
    decreases |s|
  {
    if s == "" then []
    else if OrdinalAt(s) then
      LeadingAreDigits(s[1..]);
      [Bind(Value(Leading(s[1..])))] + Ordinal(AfterLeading(s[1..]))
    else [Ch(s[0])] + Ordinal(s[1..])
  }

  predicate StartsWithDigit(s: string) {
    s != "" && IsDigit(s[0])
  }

  /** No `?` and no `$` stands directly before a digit. */
  predicate Clean(sql: string) {
    forall i :: 0 <= i < |sql| - 1 && (sql[i] == '?' || sql[i] == '$') ==> !IsDigit(sql[i + 1])
  }

  // ---- numbers ----

  lemma {:induction false} DecimalIsNumber(n: nat)
    ensures forall c <- Decimal(n) :: IsDigit(c)
    ensures Decimal(n) != "" && Value(Decimal(n)) == n
  {
    if n >= 10 {
      DecimalIsNumber(n / 10);
      assert Decimal(n)[..|Decimal(n)| - 1] == Decimal(n / 10);
    } else {
      assert Decimal(n)[..0] == "";
      assert Value("") == 0;
    }
  }

  lemma {:induction false} LeadingOfNumber(digits: string, rest: string)
    requires forall c <- digits :: IsDigit(c)
    ensures Leading(digits + rest) == digits + Leading(rest)
    ensures AfterLeading(digits + rest) == AfterLeading(rest)
    decreases |digits|
  {
    if digits == "" {
      assert digits + rest == rest;
    } else {
      LeadingOfNumber(digits[1..], rest);
      assert (digits + rest)[1..] == digits[1..] + rest;
    }
  }

  /** Rendering leaves digits alone and turns nothing into a digit. */
  lemma {:induction false} DigitsPass(sql: string, index: nat)
    ensures StartsWithDigit(Rendered(sql, index)) <==> StartsWithDigit(sql)
    ensures AfterLeading(Rendered(sql, index)) == Rendered(AfterLeading(sql), index)
    ensures Rendered(sql, index) == "" <==> sql == ""
    decreases |sql|
  {
    if sql != "" && sql[0] != '?' {
      DigitsPass(sql[1..], index);
      assert Rendered(sql, index)[1..] == Rendered(sql[1..], index);
    }
  }

  lemma NumberReads(digits: string, rest: string)
    requires digits != "" && forall c <- digits :: IsDigit(c)
    ensures var s := "$" + (digits + rest);
            && OrdinalAt(s) && AfterLeading(s[1..]) == AfterLeading(rest)
            && Leading(s[1..]) == digits + Leading(rest)
  {
    LeadingOfNumber(digits, rest);
    var s := "$" + (digits + rest);
    assert s[1..] == digits + rest;
    assert s[1] == digits[0] && digits[0] in digits;
  }

  lemma PlaceholderReads(sql: string, index: nat)
    requires sql != "" && sql[0] == '?'
    ensures var rest := Rendered(sql[1..], index + 1);
            && OrdinalAt(Rendered(sql, index))
            && AfterLeading(Rendered(sql, index)[1..]) == AfterLeading(rest)
            && Leading(Rendered(sql, index)[1..]) == Decimal(index + 1) + Leading(rest)
  {
    var digits, rest := Decimal(index + 1), Rendered(sql[1..], index + 1);
    DecimalIsNumber(index + 1);
    NumberReads(digits, rest);
    assert Rendered(sql, index) == "$" + (digits + rest);
  }

  // ---- the theorem ----

  lemma {:induction false} CleanKeepsMeaning(sql: string, index: nat)
    requires Clean(sql)
    ensures Ordinal(Rendered(sql, index)) == Positional(sql, index)
    decreases |sql|
  {
    if sql == "" {
    } else {
      assert Clean(sql[1..]);
      if sql[0] == '?' {
        var rest := Rendered(sql[1..], index + 1);
        PlaceholderReads(sql, index);
        DecimalIsNumber(index + 1);
        DigitsPass(sql[1..], index + 1);
        assert !StartsWithDigit(rest);
        assert Decimal(index + 1) + "" == Decimal(index + 1);
        CleanKeepsMeaning(sql[1..], index + 1);
      } else {
        DigitsPass(sql[1..], index);
        assert Rendered(sql, index)[1..] == Rendered(sql[1..], index);
        CleanKeepsMeaning(sql[1..], index);
      }
    }
  }

  /** A swallowed digit makes the ordinal reading shorter than the template. */
  lemma {:induction false} OrdinalShrinks(sql: string, index: nat)
    ensures |Ordinal(Rendered(sql, index))| <= |sql|
    ensures !Clean(sql) ==> |Ordinal(Rendered(sql, index))| < |sql|
    decreases |sql|
  {
    if sql == "" {
    } else if sql[0] == '?' {
      PlaceholderReads(sql, index);
      DigitsPass(sql[1..], index + 1);
      OrdinalShrinks(AfterLeading(sql[1..]), index + 1);
      assert !StartsWithDigit(sql[1..]) && Clean(sql[1..]) ==> Clean(sql);
    } else {
      DigitsPass(sql[1..], index);
      assert Rendered(sql, index)[1..] == Rendered(sql[1..], index);
      if OrdinalAt(sql) {
        OrdinalShrinks(AfterLeading(sql[1..]), index);
      } else {
        OrdinalShrinks(sql[1..], index);
        assert Clean(sql[1..]) ==> Clean(sql);
      }
    }
  }

  lemma PositionalLength(sql: string, index: nat)
    ensures |Positional(sql, index)| == |sql|
  {
  }

  /**
   Postgres reads the rendered statement exactly as the other dialects read the template if and only
   if no placeholder and no `$` of the template stands directly before a digit.
   */
  lemma RenderKeepsMeaning(sql: string, index: nat)
    ensures Ordinal(Rendered(sql, index)) == Positional(sql, index) <==> Clean(sql)
  {
    if Clean(sql) {
      CleanKeepsMeaning(sql, index);
    } else {
      OrdinalShrinks(sql, index);
      PositionalLength(sql, index);
    }
  }

  // ---- what follows ----

  function Positions(tokens: seq<Token>): seq<nat> {
    if tokens == [] then []
    else (if tokens[0].Bind? then [tokens[0].position] else []) + Positions(tokens[1..])
  }

  lemma {:induction false} PositionsInOrder(sql: string, index: nat)
    ensures Positions(Positional(sql, index)) == seq(Placeholders(sql), i requires 0 <= i => index + 1 + i)
    decreases |sql|
  {
    if sql != "" {
      PositionsInOrder(sql[1..], if sql[0] == '?' then index + 1 else index);
      assert Positional(sql, index)[1..] == Positional(sql[1..], if sql[0] == '?' then index + 1 else index);
    }
  }

  /** A clean template is rendered with the ordinals 1, 2, ..., k in order, one per placeholder. */
  lemma OrdinalsInOrder(sql: string)
    requires Clean(sql)
    ensures Positions(Ordinal(Rendered(sql, 0))) == seq(Placeholders(sql), i requires 0 <= i => 1 + i)
  {
    CleanKeepsMeaning(sql, 0);
    PositionsInOrder(sql, 0);
  }

  /** Bind positions shown as `?` again. */
  function Template(tokens: seq<Token>): string {
    if tokens == [] then ""
    else [if tokens[0].Bind? then '?' else tokens[0].c] + Template(tokens[1..])
  }

  lemma {:induction false} TemplateOfPositional(sql: string, index: nat)
    ensures Template(Positional(sql, index)) == sql
    decreases |sql|
  {
    if sql != "" {
      TemplateOfPositional(sql[1..], if sql[0] == '?' then index + 1 else index);
      assert Positional(sql, index)[1..] == Positional(sql[1..], if sql[0] == '?' then index + 1 else index);
      assert sql == [sql[0]] + sql[1..];
    }
  }

  lemma TemplateLength(tokens: seq<Token>)
    ensures |Template(tokens)| == |tokens|
  {
  }

  /** Un-rendering gives the template back exactly when it is clean. */
  lemma RoundTrip(sql: string, index: nat)
    ensures Template(Ordinal(Rendered(sql, index))) == sql <==> Clean(sql)
  {
    if Clean(sql) {
      CleanKeepsMeaning(sql, index);
      TemplateOfPositional(sql, index);
    } else {
      OrdinalShrinks(sql, index);
      TemplateLength(Ordinal(Rendered(sql, index)));
    }
  }

  /** Every bind position replaced by the text of its value. */
  function Filled(tokens: seq<Token>, binds: seq<string>): string {
    if tokens == [] then ""
    else
      (match tokens[0]
       case Ch(c) => [c]
       case Bind(n) => if 1 <= n <= |binds| then binds[n - 1] else "")
      + Filled(tokens[1..], binds)
  }

  /** The template with each `?` replaced by the next value. */
  function FilledInOrder(sql: string, binds: seq<string>): string {
    if sql == "" then ""
    else if sql[0] == '?' then
      if binds == [] then FilledInOrder(sql[1..], []) else binds[0] + FilledInOrder(sql[1..], binds[1..])
    else [sql[0]] + FilledInOrder(sql[1..], binds)
  }

  lemma {:induction false} PositionalFills(sql: string, index: nat, binds: seq<string>)
    requires index <= |binds|
    ensures Placeholders(sql) <= |binds| - index ==>
              Filled(Positional(sql, index), binds) == FilledInOrder(sql, binds[index..])
    decreases |sql|
  {
    if sql == "" || Placeholders(sql) > |binds| - index {
    } else if sql[0] == '?' {
      PositionalFills(sql[1..], index + 1, binds);
      assert Positional(sql, index)[1..] == Positional(sql[1..], index + 1);
      assert binds[index..][1..] == binds[index + 1..];
    } else {
      PositionalFills(sql[1..], index, binds);
      assert Positional(sql, index)[1..] == Positional(sql[1..], index);
    }
  }

  /** Putting bind i for `$i` in the rendered statement is putting the binds for the `?` in turn. */
  lemma SubstitutionAgrees(sql: string, binds: seq<string>)
    requires Clean(sql) && Placeholders(sql) <= |binds|
    ensures Filled(Ordinal(Rendered(sql, 0)), binds) == FilledInOrder(sql, binds)
  {
    CleanKeepsMeaning(sql, 0);
    PositionalFills(sql, 0, binds);
    assert binds[0..] == binds;
  }
}
