/** The fraud scan run when WooCommerce has processed a checkout
    (`scan_orders_for_fraud`). The option read, the two table lookups and the
    side effects on the order become parameters and an ordered effect log. */
module WoocommerceHooks {
  import opened Wrappers
  import opened OrderedArray

  /** The columns of a matched table row that the scan reads; the other
      columns of the row are never looked at. */
  datatype Row = Row(flag: string, notes: string)

  /** `$scan_result`: identifier kind (`app_user_id`, `email`) to the flag and
      notes of the row that matched. */
  type ScanResult = seq<(string, Row)>

  /** What the scan does to the outside world, in the order it does it. */
  datatype Effect =
    | WriteScanResult(scanResult: ScanResult)  // the `scan_result` order meta
    | UpdateStatus(status: string)             // the order's new status
    | Abort                                    // the exception that stops the checkout

  const AppUserIdKey := "app_user_id"
  const EmailKey := "email"

  const Verified := "verified"
  const Review := "review"
  const Blocked := "blocked"

  /** PHP `empty()` of what `get_option` gives for the scan switch: `false`
      when the option was never saved, otherwise the saved string. */
  predicate IsEmptyOption(option: Option<string>)
  {
    option.None? || option.value == "" || option.value == "0"
  }

  /** A row was found and carries exactly this flag. */
  predicate Flagged(row: Option<Row>, flag: string)
  {
    row.Some? && row.value.flag == flag
  }

  predicate EitherFlagged(appUserIdRow: Option<Row>, emailRow: Option<Row>, flag: string)
  {
    Flagged(appUserIdRow, flag) || Flagged(emailRow, flag)
  }

  /** The entries of the scan result that a list of looked-up rows yields:
      one per row found, in the order of the list. */
  function Matched(rows: seq<(string, Option<Row>)>): ScanResult
  {
    if rows == [] then []
    else
      var last := rows[|rows| - 1];
      Matched(rows[..|rows| - 1]) + (if last.1.Some? then [(last.0, last.1.value)] else [])
  }

  /** Whether some row of the list was found with this flag. */
  function Raised(rows: seq<(string, Option<Row>)>, flag: string): bool
  {
    if rows == [] then false
    else Raised(rows[..|rows| - 1], flag) || Flagged(rows[|rows| - 1].1, flag)
  }

  /** The annotation is written exactly when something matched. */
  function Annotation(scanResult: ScanResult): seq<Effect>
  {
    if scanResult == [] then [] else [WriteScanResult(scanResult)]
  }

  /** `scan_orders_for_fraud`. `scanOption` is the stored scan switch,
      `appUserIdRow` and `emailRow` what the lookups by the order's app user
      ID and billing email found (`None` for no row). */
  method ScanOrdersForFraud(scanOption: Option<string>, appUserIdRow: Option<Row>, emailRow: Option<Row>)
    returns (scanResult: ScanResult, effects: seq<Effect>)
    // Scanning switched off: nothing is looked at and nothing happens.
    ensures IsEmptyOption(scanOption) ==> scanResult == [] && effects == []
    // One entry per row found, app user ID first, flag and notes copied.
    ensures !IsEmptyOption(scanOption) ==>
      Keys(scanResult) == (if appUserIdRow.Some? then [AppUserIdKey] else []) + (if emailRow.Some? then [EmailKey] else [])
    ensures !IsEmptyOption(scanOption) ==>
      Lookup(scanResult, AppUserIdKey) == appUserIdRow && Lookup(scanResult, EmailKey) == emailRow
    // A blocked row wins over everything: status `blocked`, then the abort.
    ensures !IsEmptyOption(scanOption) && EitherFlagged(appUserIdRow, emailRow, Blocked) ==>
      effects == Annotation(scanResult) + [UpdateStatus("blocked"), Abort]
    // Review only when nothing is blocked and nothing is verified.
    ensures (!IsEmptyOption(scanOption) && !EitherFlagged(appUserIdRow, emailRow, Blocked)
             && EitherFlagged(appUserIdRow, emailRow, Review) && !EitherFlagged(appUserIdRow, emailRow, Verified)) ==>
      effects == Annotation(scanResult) + [UpdateStatus("review-required")]
    // Verified wins over review when nothing is blocked.
    ensures (!IsEmptyOption(scanOption) && !EitherFlagged(appUserIdRow, emailRow, Blocked)
             && EitherFlagged(appUserIdRow, emailRow, Verified)) ==>
      effects == Annotation(scanResult) + [UpdateStatus("verified")]
    // No known flag (no row, or only unknown flags): the status is left alone.
    ensures (!IsEmptyOption(scanOption) && !EitherFlagged(appUserIdRow, emailRow, Blocked)
             && !EitherFlagged(appUserIdRow, emailRow, Review) && !EitherFlagged(appUserIdRow, emailRow, Verified)) ==>
      effects == Annotation(scanResult)
  {
    if IsEmptyOption(scanOption) {
      return [], [];
    }

    var rowsToCheck := [(AppUserIdKey, appUserIdRow), (EmailKey, emailRow)];
    var isVerified, reviewRequired, isBlocked;
    scanResult, isVerified, reviewRequired, isBlocked := CheckRows(rowsToCheck);
    MatchedPair(appUserIdRow, emailRow);
    RaisedPair(appUserIdRow, emailRow, Verified);
    RaisedPair(appUserIdRow, emailRow, Review);
    RaisedPair(appUserIdRow, emailRow, Blocked);

    effects := [];
    if scanResult != [] {
      effects := effects + [WriteScanResult(scanResult)];
    }

    if isBlocked {
      effects := effects + [UpdateStatus("blocked"), Abort];
      return;
    } else if reviewRequired && !isVerified {
      effects := effects + [UpdateStatus("review-required")];
    } else if isVerified {
      effects := effects + [UpdateStatus("verified")];
    }
  }

  /** The `foreach` over the looked-up rows: every row found adds its flag
      and notes under its key, and raises the matching one of the three
      flags (a flag other than the three raises none). */
  method CheckRows(rowsToCheck: seq<(string, Option<Row>)>)
    returns (scanResult: ScanResult, isVerified: bool, reviewRequired: bool, isBlocked: bool)
    requires UniqueKeys(rowsToCheck)
    ensures scanResult == Matched(rowsToCheck)
    ensures isVerified == Raised(rowsToCheck, Verified)
    ensures reviewRequired == Raised(rowsToCheck, Review)
    ensures isBlocked == Raised(rowsToCheck, Blocked)
  {
    isVerified, isBlocked, reviewRequired := false, false, false;
    scanResult := [];
    for i := 0 to |rowsToCheck|
      invariant scanResult == Matched(rowsToCheck[..i])
      invariant isVerified == Raised(rowsToCheck[..i], Verified)
      invariant reviewRequired == Raised(rowsToCheck[..i], Review)
      invariant isBlocked == Raised(rowsToCheck[..i], Blocked)
    {
      var (key, row) := rowsToCheck[i];
      if row.Some? {
        if row.value.flag == Verified {
          isVerified := true;
        } else if row.value.flag == Review {
          reviewRequired := true;
        } else if row.value.flag == Blocked {
          isBlocked := true;
        }
        FreshKey(rowsToCheck, i);
        scanResult := Put(scanResult, key, Row(row.value.flag, row.value.notes));
      }
      MatchedNext(rowsToCheck, i);
      RaisedNext(rowsToCheck, i, Verified);
      RaisedNext(rowsToCheck, i, Review);
      RaisedNext(rowsToCheck, i, Blocked);
    }
    assert rowsToCheck[..|rowsToCheck|] == rowsToCheck;
  }

  /** In a list with distinct keys, a row's key is not yet in the scan result
      built from the rows before it. */
  lemma FreshKey(rows: seq<(string, Option<Row>)>, i: nat)
    requires UniqueKeys(rows) && i < |rows|
    ensures rows[i].0 !in Keys(Matched(rows[..i]))
  {
    MatchedKeys(rows[..i], rows[i].0);
  }

  /** A flag is raised exactly when some row carries it. */
  lemma {:induction false} RaisedSome(rows: seq<(string, Option<Row>)>, flag: string)
    ensures Raised(rows, flag) <==> exists j :: 0 <= j < |rows| && Flagged(rows[j].1, flag)
  {
    if rows != [] {
      var init := rows[..|rows| - 1];
      RaisedSome(init, flag);
      if Raised(init, flag) {
        var j :| 0 <= j < |init| && Flagged(init[j].1, flag);
        assert rows[j] == init[j];
      }
      if exists j :: 0 <= j < |rows| && Flagged(rows[j].1, flag) {
        var j :| 0 <= j < |rows| && Flagged(rows[j].1, flag);
        if j < |init| {
          assert rows[j] == init[j];
        }
      }
    }
  }

  lemma RaisedNext(rows: seq<(string, Option<Row>)>, i: nat, flag: string)
    requires i < |rows|
    ensures Raised(rows[..i + 1], flag) == (Raised(rows[..i], flag) || Flagged(rows[i].1, flag))
  {
    assert rows[..i + 1][..i] == rows[..i];
  }

  /** Over the two lookups, a flag is raised when either row carries it. */
  lemma RaisedPair(appUserIdRow: Option<Row>, emailRow: Option<Row>, flag: string)
    ensures Raised([(AppUserIdKey, appUserIdRow), (EmailKey, emailRow)], flag) == EitherFlagged(appUserIdRow, emailRow, flag)
  {
    var rows := [(AppUserIdKey, appUserIdRow), (EmailKey, emailRow)];
    var first := rows[..1];
    assert first[..0] == [];
    assert Raised(first, flag) == Flagged(appUserIdRow, flag);
    assert rows[..|rows| - 1] == first;
  }

  /** One more row looked at adds its entry, if it was found. */
  lemma MatchedNext(rows: seq<(string, Option<Row>)>, i: nat)
    requires i < |rows|
    ensures Matched(rows[..i + 1]) ==
      Matched(rows[..i]) + (if rows[i].1.Some? then [(rows[i].0, rows[i].1.value)] else [])
  {
    assert rows[..i + 1][..i] == rows[..i];
  }

  /** Every key of the scan result is the key of a row looked at. */
  lemma {:induction false} MatchedKeys(rows: seq<(string, Option<Row>)>, k: string)
    ensures k in Keys(Matched(rows)) ==> k in Keys(rows)
  {
    if rows != [] {
      var init := rows[..|rows| - 1];
      var last := rows[|rows| - 1];
      var added: ScanResult := if last.1.Some? then [(last.0, last.1.value)] else [];
      MatchedKeys(init, k);
      assert Matched(rows) == Matched(init) + added;
      KeysConcat(Matched(init), added);
      assert k in Keys(added) ==> k == last.0;
      KeysLast(rows);
    }
  }

  /** The scan result of the two lookups: present rows, app user ID first. */
  lemma MatchedPair(appUserIdRow: Option<Row>, emailRow: Option<Row>)
    ensures var r := Matched([(AppUserIdKey, appUserIdRow), (EmailKey, emailRow)]);
      Keys(r) == (if appUserIdRow.Some? then [AppUserIdKey] else []) + (if emailRow.Some? then [EmailKey] else [])
      && Lookup(r, AppUserIdKey) == appUserIdRow && Lookup(r, EmailKey) == emailRow
  {
    var rows := [(AppUserIdKey, appUserIdRow), (EmailKey, emailRow)];
    assert rows[..1] == [rows[0]];
    assert rows[..1][..0] == [];
    var r := Matched(rows);
    assert Matched(rows[..1]) == if appUserIdRow.Some? then [(AppUserIdKey, appUserIdRow.value)] else [];
  }
}
