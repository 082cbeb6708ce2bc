/**
 * The device-filter language of the command line (py_netauto/cli/filters.py):
 * clauses `key=value` or `key=v1|v2|...`, each an equality test or an OR of
 * equality tests, folded left into an AND, and their display text.
 */
module Filters {
  import opened Wrappers
  import opened Text

  /** A predicate over a host's attributes. */
  datatype Predicate =
    | Eq(key: string, value: string)
    | Or(left: Predicate, right: Predicate)
    | And(left: Predicate, right: Predicate)

  /**
   * Evaluation against an attribute map. An attribute the host does not have
   * never matches; this is the model's reading of the inventory library's
   * equality filter.
   */
  predicate Matches(p: Predicate, attrs: map<string, string>)
    ensures attrs == map[] ==> !Matches(p, attrs)
  {
    match p
    case Eq(k, v) => k in attrs && attrs[k] == v
    case Or(l, r) => Matches(l, attrs) || Matches(r, attrs)
    case And(l, r) => Matches(l, attrs) && Matches(r, attrs)
  }

  /** The four syntax errors, each carrying the offending clause verbatim. */
  datatype FilterError =
    | MissingEquals(clause: string)
    | EmptyKey(clause: string)
    | EmptyValue(clause: string)
    | NoValidValues(clause: string)

  /** The text of the ValueError raised for an error; it always names the clause. */
  function Message(e: FilterError): (m: string)
    ensures Contains(m, e.clause)
  {
    var detail := match e
      case MissingEquals(_) => "Missing '=' in filter expression '"
      case EmptyKey(_) => "Empty key in filter expression '"
      case EmptyValue(_) => "Empty value in filter expression '"
      case NoValidValues(_) => "No valid values in OR expression '";
    ContainsInfix("Invalid filter syntax: " + detail, e.clause, "'");
    "Invalid filter syntax: " + detail + e.clause + "'"
  }

  /** The text before the first `=` of a clause, untrimmed. */
  function RawKey(clause: string): string {
    Partition(clause, '=').0
  }

  /** The text after the first `=` of a clause, untrimmed; it may itself hold `=`. */
  function RawValue(clause: string): string {
    Partition(clause, '=').1
  }

  /** The key the predicate tests: the raw key, stripped. */
  function ClauseKey(clause: string): string {
    Trim(RawKey(clause))
  }

  /** The raw value, stripped. */
  function ClauseValue(clause: string): string {
    Trim(RawValue(clause))
  }

  /**
   * validate_filter_syntax: a missing `=` first, then a blank key, then a blank
   * value; `None` when the clause is well formed.
   */
  function ValidateFilterSyntax(clause: string): (r: Option<FilterError>)
    ensures r.Some? ==> r.value.clause == clause && !r.value.NoValidValues?
    ensures '=' !in clause ==> r == Some(MissingEquals(clause))
    ensures '=' in clause && IsBlank(RawKey(clause)) ==> r == Some(EmptyKey(clause))
    ensures '=' in clause && !IsBlank(RawKey(clause)) && IsBlank(RawValue(clause)) ==> r == Some(EmptyValue(clause))
    ensures r == None <==> '=' in clause && !IsBlank(RawKey(clause)) && !IsBlank(RawValue(clause))
  {
    TrimEmptyIffBlank(RawKey(clause));
    TrimEmptyIffBlank(RawValue(clause));
    if '=' !in clause then Some(MissingEquals(clause))
    else if Trim(RawKey(clause)) == [] then Some(EmptyKey(clause))
    else if Trim(RawValue(clause)) == [] then Some(EmptyValue(clause))
    else None
  }

  /** Every item, stripped. */
  function StripAll(xs: seq<string>): (ys: seq<string>)
    ensures |ys| == |xs| && forall i :: 0 <= i < |xs| ==> ys[i] == Trim(xs[i])
  {
    seq(|xs|, i requires 0 <= i < |xs| => Trim(xs[i]))
  }

  /** The non-empty strings of a list, in order. */
  function NonEmpty(ys: seq<string>): (ps: seq<string>)
    ensures |ps| <= |ys|
    ensures [] !in ps
    decreases |ys|
  {
    if ys == [] then []
    else if ys[0] == [] then NonEmpty(ys[1..])
    else [ys[0]] + NonEmpty(ys[1..])
  }

  /** A string survives the filter exactly when it is listed and non-empty. */
  lemma {:induction false} NonEmptyMembers(ys: seq<string>, x: string)
    ensures x in NonEmpty(ys) <==> x in ys && x != []
    decreases |ys|
  {
    if ys != [] {
      NonEmptyMembers(ys[1..], x);
      assert ys == [ys[0]] + ys[1..];
    }
  }

  /** Filtering splits over concatenation, so the kept values stay in input order. */
  lemma {:induction false} NonEmptyAppend(xs: seq<string>, ys: seq<string>)
    ensures NonEmpty(xs + ys) == NonEmpty(xs) + NonEmpty(ys)
    decreases |xs|
  {
    if xs != [] {
      assert (xs + ys)[1..] == xs[1..] + ys;
      NonEmptyAppend(xs[1..], ys);
    } else {
      assert xs + ys == ys;
    }
  }

  /** `[v.strip() for v in xs if v.strip()]`: the non-blank items, stripped, in order. */
  function NonBlankStripped(xs: seq<string>): seq<string> {
    NonEmpty(StripAll(xs))
  }

  /** The kept values are exactly the strips of the non-blank items. */
  lemma NonBlankStrippedMembers(xs: seq<string>, x: string)
    ensures x in NonBlankStripped(xs) <==> x != [] && exists i :: 0 <= i < |xs| && x == Trim(xs[i])
  {
    NonEmptyMembers(StripAll(xs), x);
  }

  /** The values a clause accepts: the non-blank stripped pieces of its value split at `|`. */
  function ClauseValues(clause: string): seq<string> {
    NonBlankStripped(Split(ClauseValue(clause), '|'))
  }

  /** A left-nested OR of `Eq(key, v)` over the values, in order. */
  function OrChain(key: string, values: seq<string>): (p: Predicate)
    requires values != []
    ensures forall attrs :: Matches(p, attrs) <==> key in attrs && attrs[key] in values
    decreases |values|
  {
    if |values| == 1 then Eq(key, values[0])
    else Or(OrChain(key, values[..|values| - 1]), Eq(key, values[|values| - 1]))
  }

  /** parse_single_filter */
  function ParseSingleFilter(clause: string): (r: Result<Predicate, FilterError>)
    ensures ValidateFilterSyntax(clause).Some? ==> r == Err(ValidateFilterSyntax(clause).value)
    ensures r.Err? ==> r.error.clause == clause
  {
    match ValidateFilterSyntax(clause)
    case Some(e) => Err(e)
    case None =>
      var key := ClauseKey(clause);
      var value := ClauseValue(clause);
      if '|' in value then
        var values := NonBlankStripped(Split(value, '|'));
        if values == [] then Err(NoValidValues(clause)) else Ok(OrChain(key, values))
      else
        Ok(Eq(key, value))
  }

  /** Without `|` the accepted values are just the stripped value. */
  lemma SingleValue(clause: string)
    requires ValidateFilterSyntax(clause) == None
    requires '|' !in ClauseValue(clause)
    ensures ClauseValues(clause) == [ClauseValue(clause)]
  {
    TrimEmptyIffBlank(RawValue(clause));
    TrimIdempotent(RawValue(clause));
  }

  /**
   * A clause parses exactly when it is well formed and some piece of its value
   * is non-blank; the predicate then matches exactly the hosts whose attribute
   * at the stripped key equals one of those stripped pieces.
   */
  lemma ParseSingleFilterSemantics(clause: string, attrs: map<string, string>)
    ensures ParseSingleFilter(clause).Ok? <==> ValidateFilterSyntax(clause) == None && ClauseValues(clause) != []
    ensures ParseSingleFilter(clause).Ok? ==>
      (Matches(ParseSingleFilter(clause).value, attrs) <==>
        ClauseKey(clause) in attrs && attrs[ClauseKey(clause)] in ClauseValues(clause))
  {
    if ValidateFilterSyntax(clause) == None && '|' !in ClauseValue(clause) {
      SingleValue(clause);
    }
  }

  /** A clause without `|` becomes one equality test on the stripped key and value. */
  lemma SimpleClauseIsEq(clause: string)
    requires ValidateFilterSyntax(clause) == None
    requires '|' !in ClauseValue(clause)
    ensures ParseSingleFilter(clause) == Ok(Eq(ClauseKey(clause), ClauseValue(clause)))
    ensures ClauseKey(clause) != [] && ClauseValue(clause) != []
  {
    TrimEmptyIffBlank(RawKey(clause));
    TrimEmptyIffBlank(RawValue(clause));
  }

  /** A clause with `|` whose pieces are all blank is rejected. */
  lemma AllBlankPiecesRejected(clause: string)
    requires ValidateFilterSyntax(clause) == None
    requires '|' in ClauseValue(clause)
    requires forall piece :: piece in Split(ClauseValue(clause), '|') ==> IsBlank(piece)
    ensures ParseSingleFilter(clause) == Err(NoValidValues(clause))
  {
    var pieces := Split(ClauseValue(clause), '|');
    forall i | 0 <= i < |pieces| ensures Trim(pieces[i]) == [] {
      TrimEmptyIffBlank(pieces[i]);
    }
    var values := NonBlankStripped(pieces);
    if values != [] {
      NonBlankStrippedMembers(pieces, values[0]);
    }
  }

  lemma {:induction false} IndexOfAfterPrefix(prefix: string, rest: string, c: char)
    requires c !in prefix && c in rest
    ensures IndexOf(prefix + rest, c) == |prefix| + IndexOf(rest, c)
    decreases |prefix|
  {
    if prefix != [] {
      assert (prefix + rest)[1..] == prefix[1..] + rest;
      IndexOfAfterPrefix(prefix[1..], rest, c);
    } else {
      assert prefix + rest == rest;
    }
  }

  /** The clause splits at its first `=`: with an `=`-free key the rest is the value, `=` included. */
  lemma SplitsAtFirstEquals(key: string, value: string)
    requires '=' !in key
    ensures RawKey(key + "=" + value) == key
    ensures RawValue(key + "=" + value) == value
  {
    var s := key + "=" + value;
    assert s == key + ("=" + value);
    IndexOfAfterPrefix(key, "=" + value, '=');
    assert IndexOf(s, '=') == |key|;
    assert s[..|key|] == key && s[|key| + 1..] == value;
  }

  /** The index of the first failed result, or the number of results. */
  function FirstErr<T, E>(rs: seq<Result<T, E>>): (i: nat)
    ensures i <= |rs|
    ensures forall j :: 0 <= j < i ==> rs[j].Ok?
    ensures i < |rs| ==> rs[i].Err?
    decreases |rs|
  {
    if rs == [] || rs[0].Err? then 0
    else
      assert forall j :: 0 < j < |rs| ==> rs[j] == rs[1..][j - 1];
      1 + FirstErr(rs[1..])
  }

  /** All values when every result is a success, otherwise the first error. */
  function Collect<T, E>(rs: seq<Result<T, E>>): (r: Result<seq<T>, E>)
    ensures r.Ok? <==> FirstErr(rs) == |rs|
    ensures r.Ok? ==> |r.value| == |rs| && forall i :: 0 <= i < |rs| ==> rs[i] == Ok(r.value[i])
    ensures r.Err? ==> rs[FirstErr(rs)] == Err(r.error)
    decreases |rs|
  {
    if rs == [] then Ok([])
    else if rs[0].Err? then Err(rs[0].error)
    else
      var rest := Collect(rs[1..]);
      assert forall i :: 0 < i < |rs| ==> rs[i] == rs[1..][i - 1];
      if rest.Err? then Err(rest.error)
      else Ok([rs[0].value] + rest.value)
  }

  /** Each clause parsed on its own. */
  function ParseEach(clauses: seq<string>): (rs: seq<Result<Predicate, FilterError>>)
    ensures |rs| == |clauses| && forall i :: 0 <= i < |clauses| ==> rs[i] == ParseSingleFilter(clauses[i])
  {
    seq(|clauses|, i requires 0 <= i < |clauses| => ParseSingleFilter(clauses[i]))
  }

  /** The index of the first clause that does not parse, or the number of clauses. */
  function FirstInvalid(clauses: seq<string>): nat {
    FirstErr(ParseEach(clauses))
  }

  /**
   * Parse every clause from left to right; the first invalid clause's error
   * wins, as the loop in parse_filters raises on it.
   */
  function ParseAll(clauses: seq<string>): (r: Result<seq<Predicate>, FilterError>)
    ensures r.Ok? <==> forall i :: 0 <= i < |clauses| ==> ParseSingleFilter(clauses[i]).Ok?
    ensures r.Ok? ==> (|r.value| == |clauses| &&
      forall i :: 0 <= i < |clauses| ==> ParseSingleFilter(clauses[i]) == Ok(r.value[i]))
    ensures r.Err? ==> (FirstInvalid(clauses) < |clauses| &&
      ParseSingleFilter(clauses[FirstInvalid(clauses)]) == Err(r.error) &&
      forall j :: 0 <= j < FirstInvalid(clauses) ==> ParseSingleFilter(clauses[j]).Ok?)
  {
    Collect(ParseEach(clauses))
  }

  /** A left-nested AND of the predicates, in order. */
  function AndChain(ps: seq<Predicate>): (p: Predicate)
    requires ps != []
    ensures forall attrs :: Matches(p, attrs) <==> forall i :: 0 <= i < |ps| ==> Matches(ps[i], attrs)
    decreases |ps|
  {
    if |ps| == 1 then ps[0]
    else
      var init := ps[..|ps| - 1];
      assert forall i :: 0 <= i < |ps| - 1 ==> ps[i] == init[i];
      And(AndChain(init), ps[|ps| - 1])
  }

  /** parse_filters: no clauses (None or []) give no predicate. */
  function ParseFilters(filterStrings: Option<seq<string>>): (r: Result<Option<Predicate>, FilterError>)
    ensures (filterStrings.None? || filterStrings.value == []) ==> r == Ok(None)
    ensures r == Ok(None) ==> filterStrings.None? || filterStrings.value == []
  {
    if filterStrings.None? || filterStrings.value == [] then Ok(None)
    else
      match ParseAll(filterStrings.value)
      case Err(e) => Err(e)
      case Ok(ps) => Ok(Some(AndChain(ps)))
  }

  /**
   * Several clauses match a host exactly when every clause does, and an
   * invalid clause anywhere fails the whole parse with the error of the
   * first invalid clause.
   */
  lemma ParseFiltersSemantics(clauses: seq<string>, attrs: map<string, string>)
    requires clauses != []
    ensures ParseFilters(Some(clauses)).Ok? <==> forall i :: 0 <= i < |clauses| ==> ParseSingleFilter(clauses[i]).Ok?
    ensures ParseFilters(Some(clauses)).Ok? ==> (ParseFilters(Some(clauses)).value.Some? &&
      (Matches(ParseFilters(Some(clauses)).value.value, attrs) <==>
        forall i :: 0 <= i < |clauses| ==> Matches(ParseSingleFilter(clauses[i]).value, attrs)))
    ensures ParseFilters(Some(clauses)).Err? ==>
      ParseSingleFilter(clauses[FirstInvalid(clauses)]) == Err(ParseFilters(Some(clauses)).error)
  {
    var all := ParseAll(clauses);
    if all.Ok? {
      var ps := all.value;
      assert ParseFilters(Some(clauses)) == Ok(Some(AndChain(ps)));
      forall i | 0 <= i < |clauses| ensures ParseSingleFilter(clauses[i]).value == ps[i] {
      }
    } else {
      assert ParseFilters(Some(clauses)) == Err(all.error);
    }
  }

  /** The fixed text shown when no filter is given. */
  const NoFiltersText := "No filters applied"

  /** format_filter_expression: the clauses verbatim, joined with " AND ". */
  function FormatFilterExpression(filterStrings: seq<string>): (text: string)
    ensures filterStrings == [] ==> text == NoFiltersText
    ensures |filterStrings| == 1 ==> text == filterStrings[0]
  {
    if filterStrings == [] then NoFiltersText else Join(filterStrings, " AND ")
  }

  /** One more clause adds " AND " and the clause itself, unexpanded. */
  lemma FormatAppend(filterStrings: seq<string>, clause: string)
    requires filterStrings != []
    ensures FormatFilterExpression(filterStrings + [clause]) == FormatFilterExpression(filterStrings) + " AND " + clause
  {
    JoinAppend(filterStrings, clause, " AND ");
  }
}
