/**
 * Finding the account and the amount columns of the sheet by their headers (main.py:176-202).
 * A header is the text `str(c)` of a column label; letter case is folded for ASCII letters only.
 */
module Columns {
  import opened Wrappers
  import opened Text

  const ACCOUNT_ALIASES: seq<string> := ["رقم الحساب", "الحساب", "Account", "account", "contract", "رقم العقد"]
  const AMOUNT_ALIASES: seq<string> := ["مبلغ المديونية", "المديونية", "amount", "Amount", "المبلغ"]

  /** First pass: the stripped header is the alias, or is it up to letter case. */
  predicate ExactMatch(header: string, alias: string) {
    Strip(header) == alias || Lower(Strip(header)) == Lower(alias)
  }

  /** Second pass: the lower-cased alias occurs in the stripped, lower-cased header. */
  predicate LooseMatch(header: string, alias: string) {
    IsSubstring(Lower(alias), Lower(Strip(header)))
  }

  /** Whether one pass accepts a header for some alias. */
  predicate Accepts(header: string, aliases: seq<string>, exact: bool) {
    exists i :: 0 <= i < |aliases| && (if exact then ExactMatch(header, aliases[i]) else LooseMatch(header, aliases[i]))
  }

  /** The first column from position `from` on, in frame order, that one pass accepts. */
  function FirstAccepted(headers: seq<string>, aliases: seq<string>, exact: bool, from: nat): (r: Option<nat>)
    decreases |headers| - from
    ensures r.Some? ==> from <= r.value < |headers| && Accepts(headers[r.value], aliases, exact)
    ensures r.Some? ==> forall k :: from <= k < r.value ==> !Accepts(headers[k], aliases, exact)
    ensures r.None? ==> forall k :: from <= k < |headers| ==> !Accepts(headers[k], aliases, exact)
  {
    if from >= |headers| then None
    else if Accepts(headers[from], aliases, exact) then Some(from)
    else FirstAccepted(headers, aliases, exact, from + 1)
  }

  /** `find_col`: the first column matched exactly (up to case), else the first column matched
      as a substring, else nothing. The column is returned with its header as written. */
  function FindCol(headers: seq<string>, aliases: seq<string>): (r: Option<string>)
    ensures r.Some? ==> r.value in headers
    ensures r.None? ==> forall k :: 0 <= k < |headers| ==>
      !Accepts(headers[k], aliases, true) && !Accepts(headers[k], aliases, false)
  {
    var exact := FirstAccepted(headers, aliases, true, 0);
    if exact.Some? then Some(headers[exact.value])
    else
      var loose := FirstAccepted(headers, aliases, false, 0);
      if loose.Some? then Some(headers[loose.value]) else None
  }

  /** A header the first pass accepts is accepted by the second pass as well. */
  lemma ExactImpliesLoose(header: string, aliases: seq<string>)
    requires Accepts(header, aliases, true)
    ensures Accepts(header, aliases, false)
  {
    var i :| 0 <= i < |aliases| && ExactMatch(header, aliases[i]);
    var h := Lower(Strip(header));
    assert h == Lower(aliases[i]);
    assert h[..|h|] == h;
    assert LooseMatch(header, aliases[i]);
  }

  /**
   * `find_col` finds a column exactly when some header contains an alias, and the column it
   * finds is one of the frame's columns.
   */
  lemma FindColFindsAny(headers: seq<string>, aliases: seq<string>)
    ensures FindCol(headers, aliases).None? <==>
      forall k :: 0 <= k < |headers| ==> !Accepts(headers[k], aliases, false)
  {
    var exact := FirstAccepted(headers, aliases, true, 0);
    if exact.Some? {
      ExactImpliesLoose(headers[exact.value], aliases);
    }
  }

  /**
   * An exact (or case-insensitive) match anywhere beats every substring match, even one in an
   * earlier column: when column `k` matches exactly, the column found is the first exact match,
   * at or before `k`.
   */
  lemma ExactMatchWins(headers: seq<string>, aliases: seq<string>, k: nat) returns (i: nat)
    requires k < |headers| && Accepts(headers[k], aliases, true)
    ensures i <= k && FindCol(headers, aliases) == Some(headers[i])
    ensures Accepts(headers[i], aliases, true)
    ensures forall j :: 0 <= j < i ==> !Accepts(headers[j], aliases, true)
  {
    i := FirstAccepted(headers, aliases, true, 0).value;
  }

  /** Without any exact match, the first column in frame order that contains an alias wins. */
  lemma LooseMatchInFrameOrder(headers: seq<string>, aliases: seq<string>, k: nat) returns (i: nat)
    requires forall j :: 0 <= j < |headers| ==> !Accepts(headers[j], aliases, true)
    requires k < |headers| && Accepts(headers[k], aliases, false)
    ensures i <= k && FindCol(headers, aliases) == Some(headers[i])
    ensures Accepts(headers[i], aliases, false)
    ensures forall j :: 0 <= j < i ==> !Accepts(headers[j], aliases, false)
  {
    i := FirstAccepted(headers, aliases, false, 0).value;
  }

  /** A header that contains a non-empty alias is not empty. */
  lemma AcceptedHeaderNonEmpty(header: string, aliases: seq<string>)
    requires forall i :: 0 <= i < |aliases| ==> aliases[i] != ""
    requires Accepts(header, aliases, false)
    ensures header != ""
  {
    var a :| 0 <= a < |aliases| && LooseMatch(header, aliases[a]);
    var needle, hay := Lower(aliases[a]), Lower(Strip(header));
    assert |needle| == |aliases[a]| > 0;
    assert |hay| == |Strip(header)| <= |header|;
  }

  /** With non-empty aliases a found column never has an empty header, so the "not found" test
      `not account_col` fails only when nothing was found. */
  lemma FoundHeaderNonEmpty(headers: seq<string>, aliases: seq<string>)
    requires forall i :: 0 <= i < |aliases| ==> aliases[i] != ""
    ensures FindCol(headers, aliases).Some? ==> FindCol(headers, aliases).value != ""
  {
    var exact := FirstAccepted(headers, aliases, true, 0);
    var loose := FirstAccepted(headers, aliases, false, 0);
    if exact.Some? {
      ExactImpliesLoose(headers[exact.value], aliases);
      AcceptedHeaderNonEmpty(headers[exact.value], aliases);
    } else if loose.Some? {
      AcceptedHeaderNonEmpty(headers[loose.value], aliases);
    }
  }

  /** What `detect_columns` yields: both columns, or the error that lists the available ones. */
  datatype Detection = Detected(account: string, amount: string) | ColumnsMissing(available: seq<string>)

  /** `detect_columns`: raises unless both the account and the amount column resolve. */
  function DetectColumns(headers: seq<string>): (r: Detection)
    ensures r.Detected? <==>
      FindCol(headers, ACCOUNT_ALIASES).Some? && FindCol(headers, AMOUNT_ALIASES).Some?
    ensures r.Detected? ==>
      r.account == FindCol(headers, ACCOUNT_ALIASES).value && r.amount == FindCol(headers, AMOUNT_ALIASES).value
    ensures r.ColumnsMissing? ==> r.available == headers
  {
    FoundHeaderNonEmpty(headers, ACCOUNT_ALIASES);
    FoundHeaderNonEmpty(headers, AMOUNT_ALIASES);
    var account := FindCol(headers, ACCOUNT_ALIASES);
    var amount := FindCol(headers, AMOUNT_ALIASES);
    if account.None? || account.value == "" || amount.None? || amount.value == "" then
      ColumnsMissing(headers)
    else
      Detected(account.value, amount.value)
  }
}
