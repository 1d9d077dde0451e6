/** What `parsePorts` promises, stated about its specification `ParseSpec`
    (which `Scanner.ParsePorts` is proved to compute). */
module ScannerProps {
  import opened GoStrings
  import opened GoStrconv
  import opened Scanner

  /** An independent reading of "the port lists, concatenated". */
  function Flatten(chunks: seq<seq<int>>): seq<int>
  {
    if chunks == [] then [] else chunks[0] + Flatten(chunks[1..])
  }

  predicate AllOk(rs: seq<Result<seq<int>>>)
  {
    forall i :: 0 <= i < |rs| ==> rs[i].Ok?
  }

  /** The port lists of outcomes that are all successes. */
  function Values(rs: seq<Result<seq<int>>>): (chunks: seq<seq<int>>)
    requires AllOk(rs)
    ensures |chunks| == |rs|
    ensures forall i :: 0 <= i < |rs| ==> chunks[i] == rs[i].value
  {
    seq(|rs|, i requires 0 <= i < |rs| => rs[i].value)
  }

  lemma {:induction false} FlattenSnoc(chunks: seq<seq<int>>, last: seq<int>)
    ensures Flatten(chunks + [last]) == Flatten(chunks) + last
    decreases |chunks|
  {
    if chunks == [] {
      assert [] + [last] == [last];
    } else {
      assert (chunks + [last])[1..] == chunks[1..] + [last];
      FlattenSnoc(chunks[1..], last);
    }
  }

  /** Fail-fast concatenation succeeds exactly when every outcome does. */
  lemma {:induction false} ConcatSucceedsIff(rs: seq<Result<seq<int>>>)
    ensures Concat(rs).Ok? <==> AllOk(rs)
    decreases |rs|
  {
    if rs != [] {
      var init := rs[..|rs| - 1];
      ConcatSucceedsIff(init);
      assert forall i :: 0 <= i < |init| ==> init[i] == rs[i];
    }
  }

  /** When every outcome succeeds, the result is their port lists
      concatenated in order. */
  lemma {:induction false} ConcatIsFlatten(rs: seq<Result<seq<int>>>)
    requires AllOk(rs)
    ensures Concat(rs) == Ok(Flatten(Values(rs)))
    decreases |rs|
  {
    if rs != [] {
      var init := rs[..|rs| - 1];
      assert AllOk(init) by {
        forall i | 0 <= i < |init| ensures init[i].Ok? { assert init[i] == rs[i]; }
      }
      ConcatIsFlatten(init);
      assert Values(rs) == Values(init) + [rs[|rs| - 1].value];
      FlattenSnoc(Values(init), rs[|rs| - 1].value);
    }
  }

  /** When every successful outcome has at least one port, a successful
      concatenation has at least one port per outcome. */
  lemma {:induction false} ConcatLength(rs: seq<Result<seq<int>>>)
    requires forall i :: 0 <= i < |rs| && rs[i].Ok? ==> |rs[i].value| >= 1
    ensures Concat(rs).Ok? ==> |Concat(rs).value| >= |rs|
    decreases |rs|
  {
    if rs != [] {
      var init := rs[..|rs| - 1];
      assert forall i :: 0 <= i < |init| ==> init[i] == rs[i];
      ConcatLength(init);
    }
  }

  /** A non-empty specification parses exactly when every comma-separated
      token does, and then yields the tokens' expansions concatenated in
      token order. */
  lemma ParseSpecIsConcatenation(portArg: string)
    requires portArg != ""
    ensures var toks := Split(portArg, ',');
      && (ParseSpec(portArg).Ok? <==> AllOk(TokenResults(toks)))
      && (ParseSpec(portArg).Ok? ==>
           ParseSpec(portArg).value == Flatten(Values(TokenResults(toks))))
  {
    var rs := TokenResults(Split(portArg, ','));
    ConcatSucceedsIff(rs);
    if AllOk(rs) {
      ConcatIsFlatten(rs);
    }
  }

  /** Fail-fast on a whole specification: when the tokens before token i all
      expand and token i does not, the parse reports token i's error and no
      ports, whatever comes after it. */
  lemma FirstBadTokenWins(portArg: string, i: nat)
    requires portArg != ""
    requires i < |Split(portArg, ',')|
    requires forall j :: 0 <= j < i ==> ExpandToken(Split(portArg, ',')[j]).Ok?
    requires ExpandToken(Split(portArg, ',')[i]).Err?
    ensures ParseSpec(portArg) == ExpandToken(Split(portArg, ',')[i])
  {
    var rs := TokenResults(Split(portArg, ','));
    assert AllOk(rs[..i]) by {
      forall j | 0 <= j < i ensures rs[..i][j].Ok? { assert rs[..i][j] == rs[j]; }
    }
    ConcatSucceedsIff(rs[..i]);
    FirstErrorWins(rs, i);
  }

  /** The empty specification yields 1, 2, ..., 65535 in ascending order. */
  lemma EmptySpecIsAllPorts()
    ensures ParseSpec("").Ok?
    ensures |ParseSpec("").value| == 65535
    ensures forall k :: 0 <= k < 65535 ==> ParseSpec("").value[k] == k + 1
  {
  }

  /** A token `x-y` whose bounds hold no `-` is valid exactly when both bounds
      parse and start <= end, and then contributes start, start+1, ..., end;
      otherwise it is an invalid range. */
  lemma RangeToken(x: string, y: string)
    requires '-' !in x && '-' !in y
    ensures var tok := x + "-" + y;
      && (ExpandToken(tok).Ok? <==>
           Atoi(x).Some? && Atoi(y).Some? && Atoi(x).value <= Atoi(y).value)
      && (ExpandToken(tok).Ok? ==>
           ExpandToken(tok).value == Range(Atoi(x).value, Atoi(y).value)
           && |ExpandToken(tok).value| == Atoi(y).value - Atoi(x).value + 1
           && forall k :: 0 <= k < |ExpandToken(tok).value| ==>
                ExpandToken(tok).value[k] == Atoi(x).value + k)
      && (ExpandToken(tok).Err? ==> ExpandToken(tok) == Err(InvalidRange(tok)))
  {
    var tok := x + "-" + y;
    assert '-' in tok by { assert tok[|x|] == '-'; }
    SplitAfterPiece(x, '-', y);
    SplitNoSep(y, '-');
    assert Split(tok, '-') == [x, y];
  }

  /** A token with two or more `-` is an invalid range (`1-2-3`). */
  lemma MultiDashToken(tok: string)
    requires Count(tok, '-') >= 2
    ensures ExpandToken(tok) == Err(InvalidRange(tok))
  {
  }

  /** A token starting with `-` has an empty start bound, so it is an invalid
      range: a negative single port such as `-5` is rejected. */
  lemma LeadingDashToken(y: string)
    ensures ExpandToken("-" + y) == Err(InvalidRange("-" + y))
  {
    var tok := "-" + y;
    assert tok[0] == '-';
    SplitAfterPiece("", '-', y);
    assert "" + "-" + y == tok;
  }

  /** A token without `-` is valid exactly when it parses as an integer,
      and then contributes that one integer; otherwise it is an invalid port. */
  lemma SinglePortToken(tok: string)
    requires '-' !in tok
    ensures ExpandToken(tok).Ok? <==> Atoi(tok).Some?
    ensures ExpandToken(tok).Ok? ==> ExpandToken(tok).value == [Atoi(tok).value]
    ensures ExpandToken(tok).Err? ==> ExpandToken(tok) == Err(InvalidPort(tok))
  {
  }

  /** A token holding a space never expands: Atoi does not trim. */
  lemma SpacedTokenFails(tok: string)
    requires ' ' in tok
    ensures ExpandToken(tok).Err?
  {
    if '-' !in tok {
      AtoiRejectsSpace(tok);
    } else {
      var bounds := Split(tok, '-');
      if |bounds| == 2 {
        SplitCovers(tok, '-', ' ');
        if ' ' in bounds[0] {
          AtoiRejectsSpace(bounds[0]);
        } else {
          AtoiRejectsSpace(bounds[1]);
        }
      }
    }
  }

  /** Any space anywhere in a specification makes it fail (`80, 443`). */
  lemma SpacedSpecFails(portArg: string)
    requires ' ' in portArg
    ensures ParseSpec(portArg).Err?
  {
    var toks := Split(portArg, ',');
    SplitCovers(portArg, ',', ' ');
    var i :| 0 <= i < |toks| && ' ' in toks[i];
    SpacedTokenFails(toks[i]);
    ConcatSucceedsIff(TokenResults(toks));
  }

  /** An error appended to a list of outcomes is the result unless an
      earlier outcome already failed. */
  lemma ConcatThenErr(rs: seq<Result<seq<int>>>, e: Result<seq<int>>)
    requires e.Err?
    ensures Concat(rs + [e]) == if Concat(rs).Err? then Concat(rs) else e
  {
    assert (rs + [e])[..|rs|] == rs;
  }

  /** The empty token is an invalid port. */
  lemma EmptyTokenFails()
    ensures ExpandToken("") == Err(InvalidPort(""))
  {
    assert '-' !in "";
    assert Atoi("").None?;
  }

  /** A trailing comma always fails: it leaves an empty last token, which is
      an invalid port unless an earlier token already failed (`80,`). */
  lemma TrailingComma(portArg: string)
    ensures ParseSpec(portArg + ",").Err?
    ensures ParseSpec(portArg).Ok? ==>
      ParseSpec(portArg + ",") == Err(InvalidPort(""))
  {
    var toks := Split(portArg, ',');
    SplitTrailingSep(portArg, ',');
    EmptyTokenFails();
    var rs, all := TokenResults(toks), TokenResults(toks + [""]);
    assert portArg + "," != "" by { assert |portArg + ","| > 0; }
    assert all == rs + [Err(InvalidPort(""))];
    ConcatThenErr(rs, Err(InvalidPort("")));
    if portArg == "" {
      assert rs == [Err(InvalidPort(""))];
      OneOutcome(Err(InvalidPort("")));
    }
  }

  /** A successful parse never yields an empty list: every token contributes
      at least one port. */
  lemma SuccessIsNonEmpty(portArg: string)
    requires ParseSpec(portArg).Ok?
    ensures |ParseSpec(portArg).value| >= 1
    ensures portArg != "" ==> |ParseSpec(portArg).value| >= Count(portArg, ',') + 1
  {
    if portArg != "" {
      ConcatLength(TokenResults(Split(portArg, ',')));
    }
  }

  /** A decimal spelling of a non-negative int is a single-port token. */
  lemma DecimalToken(n: int)
    requires 0 <= n <= MaxInt64
    ensures ExpandToken(Itoa(n)) == Ok([n])
  {
    var s := Itoa(n);
    assert '-' !in s by {
      forall i | 0 <= i < |s| ensures s[i] != '-' {
        assert IsDigit(s[i]);
      }
    }
    AtoiItoa(n);
  }

  /** One outcome is its own concatenation. */
  lemma OneOutcome(r: Result<seq<int>>)
    ensures Concat([r]) == r
  {
    assert [r][..0] == [];
    assert r.Ok? ==> [] + r.value == r.value;
  }

  /** A specification without commas is one token. */
  lemma OneTokenSpec(tok: string)
    requires tok != "" && ',' !in tok
    ensures ParseSpec(tok) == ExpandToken(tok)
  {
    SplitNoSep(tok, ',');
    assert TokenResults([tok]) == [ExpandToken(tok)];
    OneOutcome(ExpandToken(tok));
  }

  /** No range check on explicit ports: any non-negative int spelled in
      decimal, 0 and 70000 included, comes back as it is. */
  lemma NoBoundsCheck(n: int)
    requires 0 <= n <= MaxInt64
    ensures ParseSpec(Itoa(n)) == Ok([n])
  {
    var s := Itoa(n);
    assert ',' !in s by {
      forall i | 0 <= i < |s| ensures s[i] != ',' {
        assert IsDigit(s[i]);
      }
    }
    DecimalToken(n);
    OneTokenSpec(s);
  }

  /** A specification with one comma is the two tokens on either side. */
  lemma TwoTokenSplit(x: string, y: string)
    requires ',' !in x && ',' !in y
    ensures ParseSpec(x + "," + y) == Concat([ExpandToken(x), ExpandToken(y)])
  {
    var s := x + "," + y;
    assert s == x + [','] + y && |s| > 0;
    SplitAfterPiece(x, ',', y);
    SplitNoSep(y, ',');
    assert Split(s, ',') == [x, y];
    assert TokenResults([x, y]) == [ExpandToken(x), ExpandToken(y)];
  }

  /** Two outcomes combine first to last. */
  lemma TwoOutcomes(a: Result<seq<int>>, b: Result<seq<int>>)
    ensures a.Err? ==> Concat([a, b]) == a
    ensures a.Ok? && b.Err? ==> Concat([a, b]) == b
    ensures a.Ok? && b.Ok? ==> Concat([a, b]) == Ok(a.value + b.value)
  {
    assert [a, b][..1] == [a];
    OneOutcome(a);
  }

  /** Two single-port tokens. */
  lemma DecimalPortsSpec(p: int, q: int)
    requires 0 <= p <= MaxInt64 && 0 <= q <= MaxInt64
    ensures ParseSpec(Itoa(p) + "," + Itoa(q)) == Ok([p, q])
  {
    var x, y := Itoa(p), Itoa(q);
    assert ',' !in x by {
      forall i | 0 <= i < |x| ensures x[i] != ',' { assert IsDigit(x[i]); }
    }
    assert ',' !in y by {
      forall i | 0 <= i < |y| ensures y[i] != ',' { assert IsDigit(y[i]); }
    }
    DecimalToken(p);
    DecimalToken(q);
    TwoTokenSplit(x, y);
    TwoOutcomes(ExpandToken(x), ExpandToken(y));
    assert [p] + [q] == [p, q];
  }

  /** The resolver's documented examples. */
  lemma ExampleTwoPorts()
    ensures ParseSpec("80,443") == Ok([80, 443])
  {
    assert Itoa(80) + "," + Itoa(443) == "80,443" by {
      assert Itoa(80) == "80" && Itoa(443) == "443";
    }
    DecimalPortsSpec(80, 443);
  }

  /** A range spelled with two non-negative decimal bounds. */
  lemma DecimalRangeSpec(lo: int, hi: int)
    requires 0 <= lo <= MaxInt64 && 0 <= hi <= MaxInt64
    ensures lo <= hi ==> ParseSpec(Itoa(lo) + "-" + Itoa(hi)) == Ok(Range(lo, hi))
    ensures hi < lo ==>
      ParseSpec(Itoa(lo) + "-" + Itoa(hi)) == Err(InvalidRange(Itoa(lo) + "-" + Itoa(hi)))
  {
    var x, y := Itoa(lo), Itoa(hi);
    assert '-' !in x && ',' !in x by {
      forall i | 0 <= i < |x| ensures x[i] != '-' && x[i] != ',' { assert IsDigit(x[i]); }
    }
    assert '-' !in y && ',' !in y by {
      forall i | 0 <= i < |y| ensures y[i] != '-' && y[i] != ',' { assert IsDigit(y[i]); }
    }
    AtoiItoa(lo);
    AtoiItoa(hi);
    RangeToken(x, y);
    var tok := x + "-" + y;
    assert ',' !in tok;
    OneTokenSpec(tok);
  }

  lemma ExampleRange()
    ensures ParseSpec("20-22") == Ok([20, 21, 22])
  {
    assert Itoa(20) + "-" + Itoa(22) == "20-22" by {
      assert Itoa(20) == "20" && Itoa(22) == "22";
    }
    DecimalRangeSpec(20, 22);
    assert Range(20, 22) == [20, 21, 22];
  }

  /** A range token followed by a single-port token. */
  lemma DecimalRangeThenPortSpec(lo: int, hi: int, p: int)
    requires 0 <= lo <= hi <= MaxInt64 && 0 <= p <= MaxInt64
    ensures ParseSpec(Itoa(lo) + "-" + Itoa(hi) + "," + Itoa(p)) == Ok(Range(lo, hi) + [p])
  {
    var x, y := Itoa(lo) + "-" + Itoa(hi), Itoa(p);
    DecimalRangeSpec(lo, hi);
    assert x != "" && ',' !in x by {
      forall i | 0 <= i < |Itoa(lo)| ensures Itoa(lo)[i] != ',' { assert IsDigit(Itoa(lo)[i]); }
      forall i | 0 <= i < |Itoa(hi)| ensures Itoa(hi)[i] != ',' { assert IsDigit(Itoa(hi)[i]); }
    }
    OneTokenSpec(x);
    assert ',' !in y by {
      forall i | 0 <= i < |y| ensures y[i] != ',' { assert IsDigit(y[i]); }
    }
    DecimalToken(p);
    TwoTokenSplit(x, y);
    TwoOutcomes(ExpandToken(x), ExpandToken(y));
  }

  lemma ExampleNotANumber()
    ensures ParseSpec("abc") == Err(InvalidPort("abc"))
  {
    assert Atoi("abc").None? by { assert !IsDigit('a'); }
    OneTokenSpec("abc");
  }

  lemma ExampleReversedRange()
    ensures ParseSpec("50-20") == Err(InvalidRange("50-20"))
  {
    assert Itoa(50) + "-" + Itoa(20) == "50-20" by {
      assert Itoa(50) == "50" && Itoa(20) == "20";
    }
    DecimalRangeSpec(50, 20);
  }

  lemma ExampleThreeBounds()
    ensures ParseSpec("1-2-3") == Err(InvalidRange("1-2-3"))
  {
    assert Count("1-2-3", '-') == 2;
    MultiDashToken("1-2-3");
    OneTokenSpec("1-2-3");
  }

  lemma ExampleNegativePort()
    ensures ParseSpec("-5") == Err(InvalidRange("-5"))
  {
    LeadingDashToken("5");
    assert "-" + "5" == "-5";
    OneTokenSpec("-5");
  }

  lemma ExampleTrailingComma()
    ensures ParseSpec("80,") == Err(InvalidPort(""))
  {
    assert Itoa(80) == "80";
    DecimalToken(80);
    OneTokenSpec("80");
    TrailingComma("80");
    assert "80" + "," == "80,";
  }

  lemma ExampleOutOfRangePorts()
    ensures ParseSpec("0") == Ok([0])
    ensures ParseSpec("70000") == Ok([70000])
  {
    assert Itoa(0) == "0" && Itoa(70000) == "70000";
    NoBoundsCheck(0);
    NoBoundsCheck(70000);
  }
}
