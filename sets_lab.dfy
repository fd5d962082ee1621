/**
 * The set-operations lab (labs/dev260_week_8_sets_lab/Program.cs):
 * case-insensitive deduplication of an email list, a permission map from
 * user ids to permission sets, and set differences and intersections over
 * two enrolment sets. Every public operation counts itself in
 * `totalOperations`.
 */
module SetsLab {
  import opened Text

  // ---------------------------------------------------------------------
  // Case-insensitive deduplication
  // ---------------------------------------------------------------------

  /** Some entry of `s` equals `e` under OrdinalIgnoreCase. */
  predicate HasFold(s: seq<string>, e: string) {
    exists k :: 0 <= k < |s| && FoldEq(s[k], e)
  }

  /** No two entries are equal under OrdinalIgnoreCase. */
  predicate NoFoldDuplicates(s: seq<string>) {
    forall i, j :: 0 <= i < j < |s| ==> !FoldEq(s[i], s[j])
  }

  /**
   * The contents of a case-insensitive HashSet filled from `emails` in
   * order: `Add` keeps the first spelling of each address, and an unmodified
   * set enumerates in insertion order.
   */
  function Dedup(emails: seq<string>): (r: seq<string>)
    ensures |r| <= |emails|
  {
    if emails == [] then []
    else
      var d := Dedup(emails[..|emails| - 1]);
      if HasFold(d, emails[|emails| - 1]) then d else d + [emails[|emails| - 1]]
  }

  /** The deduplicated list has no case-insensitive duplicates. */
  lemma {:induction false} DedupNoDuplicates(emails: seq<string>)
    ensures NoFoldDuplicates(Dedup(emails))
  {
    if emails != [] {
      var init := emails[..|emails| - 1];
      var last := emails[|emails| - 1];
      DedupNoDuplicates(init);
      var d := Dedup(init);
      if !HasFold(d, last) {
        var r := d + [last];
        forall i, j | 0 <= i < j < |r| ensures !FoldEq(r[i], r[j]) {
          if j == |d| {
            assert r[i] == d[i] && r[j] == last;
          } else {
            assert r[i] == d[i] && r[j] == d[j];
          }
        }
      }
    }
  }

  /** The deduplicated list holds only original emails. */
  lemma {:induction false} DedupFromInput(emails: seq<string>)
    ensures forall k :: 0 <= k < |Dedup(emails)| ==> Dedup(emails)[k] in emails
  {
    if emails != [] {
      var init := emails[..|emails| - 1];
      DedupFromInput(init);
      var d := Dedup(init);
      var r := Dedup(emails);
      forall k | 0 <= k < |r| ensures r[k] in emails {
        if k < |d| {
          assert r[k] == d[k] && d[k] in init;
        }
      }
    }
  }

  /** Every original email is still represented, up to case. */
  lemma {:induction false} DedupCovers(emails: seq<string>)
    ensures forall i :: 0 <= i < |emails| ==> HasFold(Dedup(emails), emails[i])
  {
    if emails != [] {
      var init := emails[..|emails| - 1];
      var last := emails[|emails| - 1];
      DedupCovers(init);
      var d := Dedup(init);
      var r := Dedup(emails);
      forall i | 0 <= i < |emails| ensures HasFold(r, emails[i]) {
        if i < |init| {
          assert init[i] == emails[i] && HasFold(d, init[i]);
          var k :| 0 <= k < |d| && FoldEq(d[k], init[i]);
          assert r[k] == d[k];
        } else if !HasFold(d, last) {
          assert r[|d|] == last;
        }
      }
    }
  }

  /**
   * `foreach (string email in emailList) set.Add(email)`: the set is kept
   * as its enumeration order, and `Add` skips an address already present.
   */
  method FillFoldSet(emails: seq<string>) returns (seen: seq<string>)
    ensures seen == Dedup(emails)
  {
    seen := [];
    for i := 0 to |emails|
      invariant seen == Dedup(emails[..i])
    {
      assert emails[..i + 1][..i] == emails[..i];
      if !HasFold(seen, emails[i]) {
        seen := seen + [emails[i]];
      }
    }
    assert emails[..|emails|] == emails;
  }

  // ---------------------------------------------------------------------
  // Set facts the permission and enrolment operations rely on
  // ---------------------------------------------------------------------

  /** Union adds exactly the elements not already present. */
  lemma UnionAdds(current: set<string>, added: set<string>)
    ensures |current + added| - |current| == |added - current|
  {
    assert current + added == current + (added - current);
    assert current * (added - current) == {};
  }

  class SetOperationsLab {
    var userPermissions: map<string, set<string>>
    var enrolledNow: set<string>
    var enrolledLastQuarter: set<string>
    var totalOperations: int

    constructor ()
      ensures userPermissions == map[] && enrolledNow == {} && enrolledLastQuarter == {}
      ensures totalOperations == 0
    {
      userPermissions := map[];
      enrolledNow := {};
      enrolledLastQuarter := {};
      totalOperations := 0;
    }

    /**
     * InitializeUserPermissions: every user of `permissions` gets that set,
     * replacing any set already stored; other users keep theirs.
     */
    method InitializeUserPermissions(permissions: map<string, set<string>>)
      modifies this
      ensures userPermissions.Keys == old(userPermissions).Keys + permissions.Keys
      ensures forall u :: u in permissions ==> userPermissions[u] == permissions[u]
      ensures forall u :: u in old(userPermissions) && u !in permissions ==>
        userPermissions[u] == old(userPermissions)[u]
      ensures totalOperations == old(totalOperations)
      ensures enrolledNow == old(enrolledNow) && enrolledLastQuarter == old(enrolledLastQuarter)
    {
      userPermissions := userPermissions + permissions;
    }

    /** InitializeEnrollmentData: both enrolment sets gain the given students. */
    method InitializeEnrollmentData(thisQuarter: set<string>, lastQuarter: set<string>)
      modifies this
      ensures enrolledNow == old(enrolledNow) + thisQuarter
      ensures enrolledLastQuarter == old(enrolledLastQuarter) + lastQuarter
      ensures userPermissions == old(userPermissions) && totalOperations == old(totalOperations)
    {
      enrolledNow := enrolledNow + thisQuarter;
      enrolledLastQuarter := enrolledLastQuarter + lastQuarter;
    }

    /**
     * DeduplicateEmails: `deduped` is the new content of the caller's list
     * (its first spelling of every address, in order) and `duplicatesRemoved`
     * how many entries went away.
     */
    method DeduplicateEmails(emailList: seq<string>) returns (duplicatesRemoved: int, deduped: seq<string>)
      modifies this
      ensures totalOperations == old(totalOperations) + 1
      ensures deduped == Dedup(emailList)
      ensures duplicatesRemoved == |emailList| - |deduped| >= 0
      ensures NoFoldDuplicates(deduped)
      ensures forall i :: 0 <= i < |emailList| ==> HasFold(deduped, emailList[i])
      ensures forall k :: 0 <= k < |deduped| ==> deduped[k] in emailList
      ensures userPermissions == old(userPermissions)
      ensures enrolledNow == old(enrolledNow) && enrolledLastQuarter == old(enrolledLastQuarter)
    {
      totalOperations := totalOperations + 1;
      var seen := FillFoldSet(emailList);
      duplicatesRemoved := |emailList| - |seen|;
      deduped := seen;
      DedupNoDuplicates(emailList);
      DedupFromInput(emailList);
      DedupCovers(emailList);
    }

    /** HasPermission: false for an unknown user, otherwise membership. */
    method HasPermission(userId: string, permission: string) returns (r: bool)
      modifies this
      ensures r <==> userId in userPermissions && permission in userPermissions[userId]
      ensures totalOperations == old(totalOperations) + 1
      ensures userPermissions == old(userPermissions)
      ensures enrolledNow == old(enrolledNow) && enrolledLastQuarter == old(enrolledLastQuarter)
    {
      totalOperations := totalOperations + 1;
      if userId !in userPermissions {
        return false;
      }
      var perms := userPermissions[userId];
      r := permission in perms;
    }

    /**
     * AddPermissions: the user's set (empty for a new user) gains the new
     * permissions; the result is how many were not there before.
     */
    method AddPermissions(userId: string, newPermissions: set<string>) returns (added: int)
      modifies this
      ensures var before := if userId in old(userPermissions) then old(userPermissions)[userId] else {};
        && userPermissions == old(userPermissions)[userId := before + newPermissions]
        && added == |newPermissions - before|
      ensures totalOperations == old(totalOperations) + 1
      ensures enrolledNow == old(enrolledNow) && enrolledLastQuarter == old(enrolledLastQuarter)
    {
      totalOperations := totalOperations + 1;
      var perms := userPermissions;
      if userId !in perms {
        perms := perms[userId := {}];
      }
      var current := perms[userId];
      var beforeCount := |current|;
      var afterCount := |current + newPermissions|;
      UnionAdds(current, newPermissions);
      userPermissions := perms[userId := current + newPermissions];
      added := afterCount - beforeCount;
    }

    /**
     * GetMissingPermissions: the required permissions the user lacks (all of
     * them for an unknown user); the permission map is left alone.
     */
    method GetMissingPermissions(userId: string, requiredPermissions: set<string>) returns (missing: set<string>)
      modifies this
      ensures userId !in userPermissions ==> missing == requiredPermissions
      ensures userId in userPermissions ==> missing == requiredPermissions - userPermissions[userId]
      ensures totalOperations == old(totalOperations) + 1
      ensures userPermissions == old(userPermissions)
      ensures enrolledNow == old(enrolledNow) && enrolledLastQuarter == old(enrolledLastQuarter)
    {
      totalOperations := totalOperations + 1;
      missing := {};
      var userPerms: set<string> := if userId in userPermissions then userPermissions[userId] else {};
      var remaining := requiredPermissions;
      while remaining != {}
        invariant remaining <= requiredPermissions
        invariant missing == (requiredPermissions - remaining) - userPerms
        decreases remaining
      {
        var perm :| perm in remaining;
        if perm !in userPerms {
          missing := missing + {perm};
        }
        remaining := remaining - {perm};
      }
    }

    /** FindNewStudents: enrolled now but not last quarter. */
    method FindNewStudents() returns (result: set<string>)
      modifies this
      ensures result == enrolledNow - enrolledLastQuarter
      ensures totalOperations == old(totalOperations) + 1
      ensures enrolledNow == old(enrolledNow) && enrolledLastQuarter == old(enrolledLastQuarter)
      ensures userPermissions == old(userPermissions)
    {
      totalOperations := totalOperations + 1;
      result := enrolledNow;
      result := result - enrolledLastQuarter;
    }

    /** FindDroppedStudents: enrolled last quarter but not now. */
    method FindDroppedStudents() returns (result: set<string>)
      modifies this
      ensures result == enrolledLastQuarter - enrolledNow
      ensures totalOperations == old(totalOperations) + 1
      ensures enrolledNow == old(enrolledNow) && enrolledLastQuarter == old(enrolledLastQuarter)
      ensures userPermissions == old(userPermissions)
    {
      totalOperations := totalOperations + 1;
      result := enrolledLastQuarter;
      result := result - enrolledNow;
    }

    /** FindContinuingStudents: enrolled in both quarters. */
    method FindContinuingStudents() returns (result: set<string>)
      modifies this
      ensures result == enrolledNow * enrolledLastQuarter
      ensures totalOperations == old(totalOperations) + 1
      ensures enrolledNow == old(enrolledNow) && enrolledLastQuarter == old(enrolledLastQuarter)
      ensures userPermissions == old(userPermissions)
    {
      totalOperations := totalOperations + 1;
      result := enrolledNow;
      result := result * enrolledLastQuarter;
    }
  }

  /**
   * New, dropped and continuing students partition the two enrolments:
   * now = new ∪ continuing and last = dropped ∪ continuing, each disjointly.
   */
  lemma EnrolmentPartition(now: set<string>, last: set<string>)
    ensures (now - last) + (now * last) == now && (now - last) !! (now * last)
    ensures (last - now) + (now * last) == last && (last - now) !! (now * last)
    ensures |now| == |now - last| + |now * last|
  {
    assert (now - last) + (now * last) == now;
  }
}
