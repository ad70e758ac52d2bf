/** Claims: reading them from the role tables (`ListUserClaims` in
    `internal/identity/repository/authorization_store.go`), merging them with what
    the host adds (`mergeClaims` in `pkg/identity/module.go`) and asking them for a
    permission (`internal/identity/service/authorization.go`). */
module Claims {
  import opened Types
  import opened Strings
  import Rbac

  datatype Claims = Claims(roles: seq<string>, permissions: seq<string>, attributes: map<string, string>)

  // First occurrences.

  /** The distinct non-empty texts, in the order of their first occurrence. */
  function Distinct(s: seq<string>): seq<string> {
    if s == [] then []
    else
      var front, last := s[..|s| - 1], s[|s| - 1];
      if last == "" || last in front then Distinct(front) else Distinct(front) + [last]
  }

  function FirstIndex(s: seq<string>, x: string): (k: nat)
    requires x in s
    ensures k < |s| && s[k] == x && x !in s[..k]
  {
    if s[0] == x then 0
    else
      var k := FirstIndex(s[1..], x);
      assert s[..k + 1] == [s[0]] + s[1..][..k];
      k + 1
  }

  ghost predicate NoRepeats(s: seq<string>) {
    forall i, j :: 0 <= i < j < |s| ==> s[i] != s[j]
  }

  ghost predicate InFirstOrder(d: seq<string>, s: seq<string>)
    requires forall x | x in d :: x in s
  {
    forall i, j :: 0 <= i < j < |d| ==> FirstIndex(s, d[i]) < FirstIndex(s, d[j])
  }

  /** What `Distinct` keeps: every non-empty text, once, and any two of them in the
      order in which they first occur. */
  lemma {:induction false} DistinctIsExact(s: seq<string>)
    ensures forall x :: x in Distinct(s) <==> x in s && x != ""
    ensures NoRepeats(Distinct(s))
    ensures InFirstOrder(Distinct(s), s)
  {
    if s != [] {
      var front, last := s[..|s| - 1], s[|s| - 1];
      DistinctIsExact(front);
      assert s == front + [last];
      var d, e := Distinct(front), Distinct(s);
      forall i, j | 0 <= i < j < |e|
        ensures FirstIndex(s, e[i]) < FirstIndex(s, e[j])
      {
        assert e[i] == d[i];
        FirstIndexInFront(s, e[i]);
        FirstIndexInFront(s, e[j]);
        assert j < |d| ==> e[j] == d[j];
      }
    }
  }

  lemma FirstIndexInFront(s: seq<string>, x: string)
    requires s != [] && x in s
    ensures x in s[..|s| - 1] ==> FirstIndex(s, x) == FirstIndex(s[..|s| - 1], x)
    ensures x !in s[..|s| - 1] ==> FirstIndex(s, x) == |s| - 1
  {
    var front := s[..|s| - 1];
    if x in front {
      var l := FirstIndex(front, x);
      assert s[l] == x && front[..l] == s[..l];
    }
  }

  /** Nothing is left to do on a list that was merged before. */
  lemma {:induction false} DistinctFixed(s: seq<string>)
    requires NoRepeats(s) && "" !in s
    ensures Distinct(s) == s
  {
    if s != [] {
      var front, last := s[..|s| - 1], s[|s| - 1];
      assert last == s[|s| - 1] && forall i :: 0 <= i < |front| ==> front[i] == s[i];
      DistinctFixed(front);
      assert s == front + [last];
    }
  }

  // Merging.

  lemma DistinctStep(s: seq<string>, i: nat)
    requires i < |s|
    ensures Distinct(s[..i + 1])
         == if s[i] == "" || s[i] in s[..i] then Distinct(s[..i]) else Distinct(s[..i]) + [s[i]]
    ensures forall x :: x in s[..i + 1] <==> x in s[..i] || x == s[i]
  {
    assert s[..i + 1][..i] == s[..i] && s[..i + 1] == s[..i] + [s[i]];
  }

  /** The loop over `roles` that appends to `roles[:0]`: reading and writing share one
      array, and the place written is never ahead of the place read. */
  method Compact(a: array<string>) returns (k: nat)
    modifies a
    ensures k <= a.Length && a[..k] == Distinct(old(a[..]))
    ensures a[k..] == old(a[k..])
  {
    ghost var all := a[..];
    var seen: set<string> := {};
    k := 0;
    for i := 0 to a.Length
      invariant k <= i && a[..k] == Distinct(all[..i])
      invariant forall j :: k <= j < a.Length ==> a[j] == all[j]
      invariant forall x :: x in seen <==> x in all[..i] && x != ""
    {
      DistinctStep(all, i);
      hide Distinct;
      var role := a[i];
      if role == "" {
        continue;
      }
      if role in seen {
        continue;
      }
      seen := seen + {role};
      ghost var kept := a[..k];
      a[k] := role;
      k := k + 1;
      assert a[..k] == kept + [role];
    }
    assert all[..a.Length] == all;
  }

  method Append(base: array<string>, extra: array<string>) returns (all: array<string>)
    ensures fresh(all) && all[..] == base[..] + extra[..]
  {
    all := new string[base.Length + extra.Length](_ => "");
    for i := 0 to base.Length
      invariant all[..i] == base[..i]
    {
      all[i] := base[i];
    }
    for i := 0 to extra.Length
      invariant all[..base.Length] == base[..] && all[base.Length..base.Length + i] == extra[..i]
    {
      all[base.Length + i] := extra[i];
    }
    assert all[..] == all[..base.Length] + all[base.Length..base.Length + extra.Length];
  }

  /** One list of `mergeClaims`.  The lists merged are left as they were, also when
      both are the same array. */
  method MergeLists(base: array<string>, extra: array<string>) returns (merged: seq<string>)
    ensures merged == Distinct(base[..] + extra[..])
    ensures base[..] == old(base[..]) && extra[..] == old(extra[..])
  {
    var all := Append(base, extra);
    var k := Compact(all);
    merged := all[..k];
  }

  /** One of the two loops that fill the merged attributes. */
  method PutAll(into: map<string, string>, from: map<string, string>) returns (merged: map<string, string>)
    ensures merged == into + from
  {
    merged := into;
    var keys := from.Keys;
    while keys != {}
      invariant keys <= from.Keys && merged.Keys == into.Keys + (from.Keys - keys)
      invariant forall key | key in merged ::
                  merged[key] == if key in from && key !in keys then from[key] else into[key]
      decreases |keys|
    {
      var key :| key in keys;
      merged := merged[key := from[key]];
      keys := keys - {key};
    }
  }

  method MergeAttributes(base: map<string, string>, extra: map<string, string>) returns (merged: map<string, string>)
    ensures merged.Keys == base.Keys + extra.Keys
    ensures forall key | key in merged :: merged[key] == if key in extra then extra[key] else base[key]
  {
    merged := PutAll(map[], base);
    merged := PutAll(merged, extra);
  }

  ghost predicate IsMergeOf(base: Claims, extra: Claims, c: Claims) {
    && c.roles == Distinct(base.roles + extra.roles)
    && c.permissions == Distinct(base.permissions + extra.permissions)
    && c.attributes.Keys == base.attributes.Keys + extra.attributes.Keys
    && forall key | key in c.attributes ::
         c.attributes[key] == if key in extra.attributes then extra.attributes[key] else base.attributes[key]
  }

  method MergeClaims(
    baseRoles: array<string>, basePermissions: array<string>, baseAttributes: map<string, string>,
    extraRoles: array<string>, extraPermissions: array<string>, extraAttributes: map<string, string>)
    returns (c: Claims)
    ensures IsMergeOf(Claims(baseRoles[..], basePermissions[..], baseAttributes),
                      Claims(extraRoles[..], extraPermissions[..], extraAttributes), c)
    ensures baseRoles[..] == old(baseRoles[..]) && basePermissions[..] == old(basePermissions[..])
    ensures extraRoles[..] == old(extraRoles[..]) && extraPermissions[..] == old(extraPermissions[..])
  {
    var roles := MergeLists(baseRoles, extraRoles);
    var permissions := MergeLists(basePermissions, extraPermissions);
    var attributes := MergeAttributes(baseAttributes, extraAttributes);
    c := Claims(roles, permissions, attributes);
  }

  // Reading.

  predicate IsAscending(s: seq<string>) {
    forall i, j :: 0 <= i < j < |s| ==> Less(s[i], s[j])
  }

  /** A strictly ascending list is determined by its elements. */
  lemma {:induction false} AscendingUnique(s: seq<string>, t: seq<string>)
    requires IsAscending(s) && IsAscending(t) && forall x :: x in s <==> x in t
    ensures s == t
  {
    if |s| == 0 {
      if |t| > 0 {
        HeadIsElement(t);
      }
    } else {
      assert s[0] in t && t != [];
      FirstIsLeast(s, t[0]);
      FirstIsLeast(t, s[0]);
      LessTrichotomy(s[0], t[0]);
      forall x
        ensures x in s[1..] <==> x in t[1..]
      {
        TailWithoutHead(s, x);
        TailWithoutHead(t, x);
      }
      AscendingUnique(s[1..], t[1..]);
      assert s == [s[0]] + s[1..] && t == [t[0]] + t[1..];
    }
  }

  lemma HeadIsElement(s: seq<string>)
    requires |s| > 0
    ensures s[0] in s
  {}

  lemma FirstIsLeast(s: seq<string>, x: string)
    requires IsAscending(s) && x in s
    ensures s[0] == x || Less(s[0], x)
  {}

  lemma TailWithoutHead(s: seq<string>, x: string)
    requires IsAscending(s) && s != []
    ensures x in s[1..] <==> x in s && x != s[0]
  {
    if x in s[1..] {
      var i :| 0 <= i < |s[1..]| && s[1..][i] == x;
      assert s[i + 1] == x && Less(s[0], s[i + 1]);
      LessTrichotomy(x, x);
    }
  }

  /** Where `x` belongs in an ascending list without it. */
  method Place(s: seq<string>, x: string) returns (k: nat)
    requires IsAscending(s) && x !in s
    ensures k <= |s|
    ensures forall i :: 0 <= i < k ==> Less(s[i], x)
    ensures forall i :: k <= i < |s| ==> Less(x, s[i])
  {
    k := 0;
    while k < |s| && Less(s[k], x)
      invariant k <= |s| && forall i :: 0 <= i < k ==> Less(s[i], x)
    {
      k := k + 1;
    }
    if k < |s| {
      LessTrichotomy(s[k], x);
      forall i | k < i < |s|
        ensures Less(x, s[i])
      {
        LessTransitive(x, s[k], s[i]);
      }
    }
  }

  lemma InsertedAscending(s: seq<string>, x: string, k: nat)
    requires IsAscending(s) && k <= |s|
    requires forall i :: 0 <= i < k ==> Less(s[i], x)
    requires forall i :: k <= i < |s| ==> Less(x, s[i])
    ensures IsAscending(s[..k] + [x] + s[k..])
    ensures forall y :: y in s[..k] + [x] + s[k..] <==> y in s || y == x
  {
    assert s == s[..k] + s[k..];
  }

  /** `sort.Strings` on distinct texts. */
  method SortStrings(list: seq<string>) returns (sorted: seq<string>)
    requires NoRepeats(list)
    ensures IsAscending(sorted) && forall x :: x in sorted <==> x in list
  {
    sorted := [];
    for i := 0 to |list|
      invariant IsAscending(sorted) && forall x :: x in sorted <==> x in list[..i]
    {
      var k := Place(sorted, list[i]);
      InsertedAscending(sorted, list[i], k);
      sorted := sorted[..k] + [list[i]] + sorted[k..];
      assert list[..i + 1] == list[..i] + [list[i]];
    }
    assert list[..|list|] == list;
  }

  /** The codes collected in a set, listed in any order and then sorted. */
  method Sorted(codes: set<string>) returns (sorted: seq<string>)
    ensures IsAscending(sorted) && forall x :: x in sorted <==> x in codes
  {
    var list: seq<string> := [];
    var left := codes;
    while left != {}
      invariant left <= codes && NoRepeats(list) && forall x :: x in list <==> x in codes - left
      decreases |left|
    {
      var code :| code in left;
      assert forall k :: 0 <= k < |list| ==> list[k] in list;
      list := list + [code];
      left := left - {code};
    }
    sorted := SortStrings(list);
  }

  /** A row of the query: a role of the user, and a permission of the role; the
      permission is empty where the outer joins find none. */
  ghost predicate Joins(db: Rbac.Db, user: UserId, r: RoleId, row: (string, string)) {
    && (user, r) in db.userRoles && r in db.roles && row.0 == db.roles[r].code
    && (|| (exists p :: (r, p) in db.rolePermissions && row.1 == PermissionCode(db, p))
        || (row.1 == "" && forall p :: (r, p) !in db.rolePermissions))
  }

  function PermissionCode(db: Rbac.Db, p: PermissionId): string {
    if p in db.permissions then db.permissions[p].code else ""
  }

  /** The rows of the query, in any order and number. */
  ghost predicate IsJoin(db: Rbac.Db, user: UserId, rows: seq<(string, string)>) {
    && (forall row | row in rows :: exists r :: Joins(db, user, r, row))
    && (forall r, row | Joins(db, user, r, row) :: row in rows)
  }

  ghost predicate IsClaimsOf(db: Rbac.Db, user: UserId, c: Claims) {
    && IsAscending(c.roles) && (forall x :: x in c.roles <==> x in Rbac.RoleCodes(db, user))
    && IsAscending(c.permissions) && (forall x :: x in c.permissions <==> x in Rbac.PermissionCodes(db, user))
    && c.attributes == map[]
  }

  method ListUserClaims(ghost db: Rbac.Db, ghost user: UserId, rows: seq<(string, string)>) returns (c: Claims)
    requires IsJoin(db, user, rows)
    ensures IsClaimsOf(db, user, c)
  {
    var roles: set<string>, permissions: set<string> := {}, {};
    for i := 0 to |rows|
      invariant forall x :: x in roles <==> x != "" && exists j :: 0 <= j < i && rows[j].0 == x
      invariant forall x :: x in permissions <==> x != "" && exists j :: 0 <= j < i && rows[j].1 == x
    {
      if rows[i].0 != "" {
        roles := roles + {rows[i].0};
      }
      if rows[i].1 != "" {
        permissions := permissions + {rows[i].1};
      }
    }
    var roleCodes := Sorted(roles);
    var permissionCodes := Sorted(permissions);
    c := Claims(roleCodes, permissionCodes, map[]);
    forall x
      ensures x in roles <==> x in Rbac.RoleCodes(db, user)
      ensures x in permissions <==> x in Rbac.PermissionCodes(db, user)
    {
      JoinedRoles(db, user, rows, x);
      JoinedPermissions(db, user, rows, x);
    }
  }

  lemma JoinedRoles(db: Rbac.Db, user: UserId, rows: seq<(string, string)>, x: string)
    requires IsJoin(db, user, rows)
    ensures x in Rbac.RoleCodes(db, user) <==> x != "" && exists j :: 0 <= j < |rows| && rows[j].0 == x
  {
    if x in Rbac.RoleCodes(db, user) {
      var l :| l in db.userRoles && l.0 == user && l.1 in db.roles && db.roles[l.1].code == x && x != "";
      assert l == (user, l.1);
      if p :| (l.1, p) in db.rolePermissions {
        assert Joins(db, user, l.1, (x, PermissionCode(db, p)));
        assert (x, PermissionCode(db, p)) in rows;
      } else {
        assert Joins(db, user, l.1, (x, ""));
        assert (x, "") in rows;
      }
    }
    if x != "" && exists j :: 0 <= j < |rows| && rows[j].0 == x {
      var j :| 0 <= j < |rows| && rows[j].0 == x;
      assert rows[j] in rows;
      var r :| Joins(db, user, r, rows[j]);
      assert (user, r).0 == user && (user, r).1 == r;
    }
  }

  lemma JoinedPermissions(db: Rbac.Db, user: UserId, rows: seq<(string, string)>, x: string)
    requires IsJoin(db, user, rows)
    ensures x in Rbac.PermissionCodes(db, user) <==> x != "" && exists j :: 0 <= j < |rows| && rows[j].1 == x
  {
    hide IsJoin, Rbac.Reaches, Rbac.PermissionCodes;
    Rbac.PermissionCodesAreReached(db, user, x);
    if Rbac.Reaches(db, user, x) {
      ReachedIsJoined(db, user, rows, x);
    }
    if x != "" && exists j :: 0 <= j < |rows| && rows[j].1 == x {
      var j: nat :| j < |rows| && rows[j].1 == x;
      JoinedIsReached(db, user, rows, j);
    }
  }

  lemma ReachedIsJoined(db: Rbac.Db, user: UserId, rows: seq<(string, string)>, x: string)
    requires IsJoin(db, user, rows) && Rbac.Reaches(db, user, x)
    ensures x != "" && exists j :: 0 <= j < |rows| && rows[j].1 == x
  {
    var r, p :| (user, r) in db.userRoles && r in db.roles && (r, p) in db.rolePermissions
                && p in db.permissions && db.permissions[p].code == x;
    var row := (db.roles[r].code, PermissionCode(db, p));
    assert Joins(db, user, r, row);
    assert row in rows;
  }

  lemma JoinedIsReached(db: Rbac.Db, user: UserId, rows: seq<(string, string)>, j: nat)
    requires IsJoin(db, user, rows) && j < |rows| && rows[j].1 != ""
    ensures Rbac.Reaches(db, user, rows[j].1)
  {
    var row := rows[j];
    assert row in rows;
    var r: RoleId :| Joins(db, user, r, row);
    var p: PermissionId :| (r, p) in db.rolePermissions && row.1 == PermissionCode(db, p);
  }

  /** Claims do not depend on the order of the rows, nor on links with a missing end. */
  lemma ClaimsDetermined(users: set<UserId>, db: Rbac.Db, user: UserId, c: Claims, c': Claims)
    requires IsClaimsOf(db, user, c)
    requires IsClaimsOf(db, user, c') || (user in users && IsClaimsOf(Rbac.Pruned(users, db), user, c'))
    ensures c == c'
  {
    if user in users {
      Rbac.ClaimsIgnoreDanglingLinks(users, db, user);
    }
    AscendingUnique(c.roles, c'.roles);
    AscendingUnique(c.permissions, c'.permissions);
  }

  /** The claims read after `SetUserRoles` name exactly the normalized requested
      roles, in order and without repetition. */
  lemma ClaimsAfterSetUserRoles(users: set<UserId>, db: Rbac.Db, user: UserId, codes: seq<string>, c: Claims)
    requires Rbac.Inv(users, db) && Rbac.SetUserRoles(users, db, user, codes).Ok?
    requires IsClaimsOf(Rbac.SetUserRoles(users, db, user, codes).value, user, c)
    ensures IsAscending(c.roles) && forall code :: code in c.roles <==> Rbac.IsRequested(codes, code)
  {
    hide Rbac.SetUserRoles, Rbac.Inv, Rbac.RoleCodes;
    Rbac.SetUserRolesIsExact(users, db, user, codes);
  }

  // Asking.

  datatype Principal = Principal(subject: UserId, user: Option<(UserId, User)>, claims: Claims)

  predicate IsActive(p: Option<Principal>) {
    p.Some? && p.value.user.Some? && p.value.subject == p.value.user.value.0 && p.value.user.value.1.IsActive()
  }

  /** The question is trimmed, the claims are not. */
  predicate Granted(c: Claims, permission: string) {
    TrimSpace(permission) != "" && TrimSpace(permission) in c.permissions
  }

  method HasPermission(p: Option<Principal>, permission: string) returns (granted: bool)
    ensures granted <==> p.Some? && Granted(p.value.claims, permission)
  {
    var wanted := TrimSpace(permission);
    if p.None? || wanted == "" {
      return false;
    }
    for i := 0 to |p.value.claims.permissions|
      invariant wanted !in p.value.claims.permissions[..i]
    {
      if p.value.claims.permissions[i] == wanted {
        return true;
      }
    }
    return false;
  }

  method Authorize(p: Option<Principal>, permission: string) returns (r: Result<()>)
    ensures r.Ok? <==> IsActive(p) && Granted(p.value.claims, permission)
    ensures r.Err? ==> r.error == if IsActive(p) then ErrForbidden else ErrUnauthenticated
  {
    if !IsActive(p) {
      return Err(ErrUnauthenticated);
    }
    var granted := HasPermission(p, permission);
    return if granted then Ok(()) else Err(ErrForbidden);
  }

  /** The claims of a principal: what the tables say and, if the host has a claims
      resolver, what that adds. */
  ghost predicate IsResolved(db: Rbac.Db, user: UserId, extra: Option<Claims>, c: Claims) {
    match extra
    case None => IsClaimsOf(db, user, c)
    case Some(e) => exists own :: IsClaimsOf(db, user, own) && IsMergeOf(own, e, c)
  }

  lemma ListedIffReachedOrSupplied(db: Rbac.Db, user: UserId, extra: Option<Claims>, c: Claims, permission: string)
    requires IsResolved(db, user, extra, c) && permission != ""
    ensures permission in c.permissions <==>
              Rbac.Reaches(db, user, permission) || (extra.Some? && permission in extra.value.permissions)
  {
    hide Rbac.Reaches, Rbac.PermissionCodes;
    Rbac.PermissionCodesAreReached(db, user, permission);
    if extra.Some? {
      var own :| IsClaimsOf(db, user, own) && IsMergeOf(own, extra.value, c);
      DistinctIsExact(own.permissions + extra.value.permissions);
    }
  }

  /** A question is answered with yes exactly if, trimmed, it is a permission that the
      user reaches through a role or that the host supplies. */
  lemma GrantedIffReachedOrSupplied(db: Rbac.Db, user: UserId, extra: Option<Claims>, c: Claims, permission: string)
    requires IsResolved(db, user, extra, c)
    ensures Granted(c, permission) <==>
              var asked := TrimSpace(permission);
              asked != "" &&
              (Rbac.Reaches(db, user, asked) || (extra.Some? && asked in extra.value.permissions))
  {
    hide Rbac.Reaches, TrimSpace, IsResolved;
    if TrimSpace(permission) != "" {
      ListedIffReachedOrSupplied(db, user, extra, c, TrimSpace(permission));
    }
  }

  /** Every permission that is reached can be asked for, and so can a supplied one
      without outer white space.  A supplied one with it is listed among the claims,
      yet the question for it is answered with yes only if what is left after trimming
      is reached or supplied too. */
  lemma SuppliedIsGrantedIffTrimmed(
    users: set<UserId>, db: Rbac.Db, user: UserId, extra: Claims, c: Claims, permission: string)
    requires Rbac.Inv(users, db) && IsResolved(db, user, Some(extra), c)
    ensures Rbac.Reaches(db, user, permission) ==> Granted(c, permission)
    ensures permission in extra.permissions && permission != "" ==>
              && permission in c.permissions
              && (Granted(c, permission) <==>
                    var asked := TrimSpace(permission);
                    || IsTrimmed(permission)
                    || (asked != "" && (Rbac.Reaches(db, user, asked) || asked in extra.permissions)))
  {
    hide IsResolved, Rbac.Inv;
    TrimSpaceFixed(permission);
    GrantedIffReachedOrSupplied(db, user, Some(extra), c, permission);
    if permission != "" {
      ListedIffReachedOrSupplied(db, user, Some(extra), c, permission);
    }
    if Rbac.Reaches(db, user, permission) {
      Rbac.ReachedIsTrimmed(users, db, user, permission);
    }
  }

  /** So a supplied `" a"` is a claim that nobody is ever granted. */
  lemma UntrimmedIsNeverGranted(user: UserId)
    returns (db: Rbac.Db, extra: Claims, c: Claims)
    ensures IsResolved(db, user, Some(extra), c)
    ensures " a" in extra.permissions && " a" in c.permissions
    ensures forall permission :: !Granted(c, permission)
  {
    db := Rbac.Db(map[], map[], {}, {});
    extra := Claims([], [" a"], map[]);
    var own := Claims([], [], map[]);
    c := Claims([], [" a"], map[]);
    assert own.permissions + extra.permissions == [" a"];
    assert [" a"][..0] == [];
    assert Distinct([" a"]) == [" a"];
    assert own.roles + extra.roles == [];
    assert IsClaimsOf(db, user, own) && IsMergeOf(own, extra, c);
    forall permission
      ensures !Granted(c, permission)
    {
      assert " a"[0] == ' ' && IsSpace(' ');
      assert !IsTrimmed(" a");
    }
  }
}
