/**
  Physical database names (dbName, ListDatabases and GetDatabase in
  internal/db/db.go): an organisation and a database id become one RethinkDB name,
  and listing finds an organisation's databases again by prefix.
 */
module Naming {
  import opened Strings

  // --------------------------------------------------------------- building names

  /** Trimmed and lower-cased. */
  function Clean(s: string): string {
    ToLower(TrimSpace(s))
  }

  function OrDefault(s: string): (r: string)
    ensures r != ""
  {
    if s == "" then "default" else s
  }

  predicate Safe(c: char) {
    'a' <= c <= 'z' || '0' <= c <= '9' || c == '_' || c == '-'
  }

  ghost predicate AllSafe(s: string) {
    forall i :: 0 <= i < |s| ==> Safe(s[i])
  }

  function Sanitized(s: string): (r: string)
    ensures |r| == |s|
    ensures forall i :: 0 <= i < |s| ==> r[i] == if Safe(s[i]) then s[i] else '_'
  {
    seq(|s|, i requires 0 <= i < |s| => if Safe(s[i]) then s[i] else '_')
  }

  method Sanitize(s: string) returns (b: string)
    ensures b == Sanitized(s) && |b| == |s|
    ensures forall i :: 0 <= i < |s| ==>
              var c := s[i];
              b[i] == if 'a' <= c <= 'z' || '0' <= c <= '9' || c == '_' || c == '-' then c else '_'
  {
    b := "";
    for i := 0 to |s|
      invariant |b| == i && forall j :: 0 <= j < i ==> b[j] == if Safe(s[j]) then s[j] else '_'
    {
      if Safe(s[i]) {
        b := b + [s[i]];
      } else {
        b := b + ['_'];
      }
    }
  }

  function OrgPart(org: string): string { Sanitized(OrDefault(Clean(org))) }
  function DbPart(db: string): string { Sanitized(OrDefault(Clean(db))) }

  function DbName(org: string, db: string): string {
    "org_" + OrgPart(org) + "__" + DbPart(db)
  }

  /** The prefix ListDatabases looks for; unlike dbName it neither sanitises nor defaults. */
  function ListPrefix(org: string): string {
    "org_" + Clean(org) + "__"
  }

  /** The ids ListDatabases reports, in the order of the names. */
  function Listed(names: seq<string>, org: string): seq<string> {
    if names == [] then []
    else
      var last := names[|names| - 1];
      Listed(names[..|names| - 1], org)
      + if HasPrefix(last, ListPrefix(org)) then [last[|ListPrefix(org)|..]] else []
  }

  method ListDatabases(names: seq<string>, org: string) returns (ids: seq<string>)
    ensures ids == Listed(names, org)
  {
    var prefix := ListPrefix(org);
    ids := [];
    for i := 0 to |names|
      invariant ids == Listed(names[..i], org)
    {
      assert names[..i + 1][..i] == names[..i];
      if HasPrefix(names[i], prefix) {
        ids := ids + [names[i][|prefix|..]];
      }
    }
    assert names[..|names|] == names;
  }

  /** GetDatabase finds the database. */
  predicate Found(names: seq<string>, org: string, id: string) {
    DbName(org, id) in names
  }

  /** GetDatabase's search through the names. */
  method Find(names: seq<string>, org: string, id: string) returns (found: bool)
    ensures found <==> Found(names, org, id)
  {
    var name := DbName(org, id);
    found := false;
    for i := 0 to |names|
      invariant !found && name !in names[..i]
    {
      if names[i] == name {
        return true;
      }
    }
  }

  // ------------------------------------------------------------------ string facts

  lemma {:induction false} TrimNoSpace(s: string)
    requires forall i :: 0 <= i < |s| ==> !IsSpace(s[i])
    ensures TrimLeft(s) == s && TrimRight(s) == s
  {}

  lemma SafeIsClean(s: string)
    requires AllSafe(s)
    ensures Clean(s) == s && Sanitized(s) == s
  {
    forall i | 0 <= i < |s| ensures !IsSpace(s[i]) && LowerChar(s[i]) == s[i] {
      assert Safe(s[i]);
    }
    TrimNoSpace(s);
    assert ToLower(s) == s;
    assert Sanitized(s) == s;
  }

  lemma SanitizedIsSafe(s: string)
    ensures AllSafe(Sanitized(s))
    ensures Sanitized(s) == s <==> AllSafe(s)
  {
    if Sanitized(s) == s {
      forall i | 0 <= i < |s| ensures Safe(s[i]) { assert Sanitized(s)[i] == s[i]; }
    }
    if AllSafe(s) { SafeIsClean(s); }
  }

  /** No two underscores in a row and none at the end: in s + "__" the separator comes first where s ends. */
  ghost predicate Plain(s: string) {
    forall i :: 0 <= i < |s| && s[i] == '_' ==> i + 1 < |s| && s[i + 1] != '_'
  }

  lemma EarlierSplit(n: string, o: string, d: string)
    requires HasPrefix(o + "__" + d, n + "__") && |o| < |n|
    ensures !Plain(n)
  {
    var s, t := o + "__" + d, n + "__";
    assert s[|o|] == '_' && s[|o| + 1] == '_';
    assert forall k :: 0 <= k < |t| ==> s[k] == s[..|t|][k];
    assert n[|o|] == t[|o|] == '_' && t[|o| + 1] == '_';
    assert |o| + 1 < |n| ==> n[|o| + 1] == t[|o| + 1];
  }

  lemma NoEarlierSplit(n: string, o: string, d: string)
    requires Plain(n) && HasPrefix(o + "__" + d, n + "__")
    ensures |n| <= |o|
  {
    hide *;
    if |o| < |n| { EarlierSplit(n, o, d); }
  }

  /** Two names split at their first "__" in one way only. */
  lemma SplitIsUnique(a: string, b: string, x: string, y: string)
    requires Plain(a) && Plain(b) && a + "__" + x == b + "__" + y
    ensures a == b && x == y
  {
    var s, t := a + "__" + x, b + "__" + y;
    assert s[..|a| + 2] == a + "__" && t[..|b| + 2] == b + "__";
    NoEarlierSplit(a, b, y);
    NoEarlierSplit(b, a, x);
    assert s[..|a|] == a && t[..|b|] == b;
    assert s[|a| + 2..] == x && t[|b| + 2..] == y;
  }

  /** Cutting a common beginning. */
  lemma CutFour(x: string, y: string)
    ensures "org_" + x == "org_" + y <==> x == y
    ensures HasPrefix("org_" + x, "org_" + y) <==> HasPrefix(x, y)
  {
    var a, b := "org_" + x, "org_" + y;
    assert a[4..] == x && b[4..] == y;
    if |y| <= |x| {
      assert a[..4 + |y|] == "org_" + x[..|y|];
      assert a[..4 + |y|][4..] == x[..|y|];
    }
  }

  lemma NameSplits(org: string, db: string)
    ensures DbName(org, db) == "org_" + (OrgPart(org) + "__" + DbPart(db))
    ensures ListPrefix(org) == "org_" + (Clean(org) + "__")
  {
    hide OrgPart, DbPart, Clean;
    assert "org_" + OrgPart(org) + "__" + DbPart(db) == "org_" + (OrgPart(org) + "__" + DbPart(db));
  }

  /** Names of safe parts are spelled out, with "default" for a blank part. */
  lemma NamesSpelled(org: string, db: string)
    requires (AllSafe(org) && org != "") || Blank(org)
    requires (AllSafe(db) && db != "") || Blank(db)
    ensures DbName(org, db)
            == "org_" + (if Blank(org) then "default" else org) + "__" + (if Blank(db) then "default" else db)
  {
    PartSpelled(org);
    PartSpelled(db);
  }

  lemma PartSpelled(s: string)
    requires (AllSafe(s) && s != "") || Blank(s)
    ensures Sanitized(OrDefault(Clean(s))) == if Blank(s) then "default" else s
  {
    var _, _ := TrimExactly(s);
    if Blank(s) {
      assert ToLower("") == "";
      assert AllSafe("default");
      SafeIsClean("default");
    } else {
      SafeIsClean(s);
    }
  }

  /** Case and outer white space make no difference to a name. */
  lemma CaseAndSpaceIgnored(a: string, s: string, b: string)
    requires Blank(a) && Blank(b)
    ensures Clean(a + s + b) == Clean(s) && Clean(ToLower(s)) == Clean(s)
  {
    TrimIgnores(a, s, b);
    LowerTrims(s);
  }

  lemma LowerTrims(s: string)
    ensures ToLower(TrimSpace(ToLower(s))) == ToLower(TrimSpace(s))
  {
    var a, b := TrimExactly(s);
    var t := TrimSpace(s);
    assert ToLower(s) == ToLower(a) + ToLower(t) + ToLower(b);
    SpacesStay(a);
    SpacesStay(b);
    TrimIgnores(a, ToLower(t), b);
    LowerTwice(t);
    if t != "" {
      LowerSpace(t[0]);
      LowerSpace(t[|t| - 1]);
      TrimmedStays(ToLower(t));
    }
  }

  lemma SpacesStay(a: string)
    requires Blank(a)
    ensures ToLower(a) == a
  {}

  lemma LowerTwice(t: string)
    ensures ToLower(ToLower(t)) == ToLower(t)
  {
    assert forall i :: 0 <= i < |t| ==> LowerChar(LowerChar(t[i])) == LowerChar(t[i]);
  }

  lemma LowerSpace(c: char)
    ensures IsSpace(LowerChar(c)) <==> IsSpace(c)
  {}

  lemma TrimmedStays(t: string)
    requires t != "" && !IsSpace(t[0]) && !IsSpace(t[|t| - 1])
    ensures TrimSpace(t) == t
  {}

  // --------------------------------------------------------------------- theorems

  /**
    ListDatabases finds a database that was created through dbName exactly when the
    organisation, trimmed and lower-cased, is not empty and already consists of safe
    characters: otherwise its prefix differs from the one dbName wrote.
   */
  lemma ListedExactlyWhenSafe(org: string, db: string)
    ensures HasPrefix(DbName(org, db), ListPrefix(org)) <==> Clean(org) != "" && AllSafe(Clean(org))
  {
    var n, p := Clean(org), OrgPart(org);
    var name, prefix := DbName(org, db), ListPrefix(org);
    SanitizedIsSafe(OrDefault(n));
    if n == "" {
      assert Sanitized("default")[0] == 'd';
      assert name[4] == 'd' && prefix[4] == '_';
    } else {
      assert |p| == |n| && |prefix| == 4 + |n| + 2;
      assert name[..|prefix|] == "org_" + p + "__";
      assert name[..|prefix|][4..4 + |n|] == p && prefix[4..4 + |n|] == n;
    }
  }

  /**
    Reading the name of organisation o and database d as one of organisation n: n is o;
    or o goes on after n with a separator, or half of one at its end; or n is o with half
    of the separator, or goes on after it, and d supplies the rest.
   */
  predicate ReadsAs(o: string, d: string, n: string) {
    || o == n
    || HasPrefix(o + "_", n + "__")
    || (n == o + "_" && HasPrefix(d, "_"))
    || (HasPrefix(n, o + "__") && HasPrefix(d, n[|o| + 2..] + "__"))
  }

  /**
    Exactly which databases the listing of an organisation shows, for every organisation;
    among plain organisations its own and no others.
   */
  lemma ListsExactly(org: string, other: string, db: string)
    ensures HasPrefix(DbName(other, db), ListPrefix(org)) <==> ReadsAs(OrgPart(other), DbPart(db), Clean(org))
    ensures Plain(Clean(org)) && Plain(OrgPart(other)) ==>
              (HasPrefix(DbName(other, db), ListPrefix(org)) <==> OrgPart(other) == Clean(org))
  {
    hide *;
    var n, o, d := Clean(org), OrgPart(other), DbPart(db);
    NameSplits(other, db);
    NameSplits(org, db);
    CutFour(o + "__" + d, n + "__");
    SplitExactly(o, n, d);
    if Plain(n) && Plain(o) { PlainSplitAfter(o, n, d); }
  }

  lemma SplitExactly(o: string, n: string, d: string)
    ensures HasPrefix(o + "__" + d, n + "__") <==> ReadsAs(o, d, n)
  {
    if |n| <= |o| {
      SplitWithin(o, n, d);
    } else if |n| == |o| + 1 {
      SplitHalf(o, n, d);
    } else {
      SplitBeyond(o, n, d);
    }
  }

  lemma SplitWithin(o: string, n: string, d: string)
    requires |n| <= |o|
    ensures HasPrefix(o + "__" + d, n + "__") <==> ReadsAs(o, d, n)
  {
    var s, t := o + "__" + d, n + "__";
    if |o| == |n| {
      assert s[..|t|] == o + "__";
      assert (o + "__")[..|n|] == o && t[..|n|] == n;
    } else {
      assert (o + "_")[..|t|] == s[..|t|];
    }
  }

  lemma SplitHalf(o: string, n: string, d: string)
    requires |n| == |o| + 1
    ensures HasPrefix(o + "__" + d, n + "__") <==> ReadsAs(o, d, n)
  {
    var s, t := o + "__" + d, n + "__";
    assert s == (o + "_") + ("_" + d);
    if |d| > 0 {
      assert d[..1] == [d[0]];
      assert s[..|t|] == (o + "_") + ("_" + d[..1]);
      assert s[..|t|][..|n|] == o + "_" && t[..|n|] == n;
      assert s[..|t|][|n|..] == "_" + d[..1] && t[|n|..] == "__";
      assert ("_" + d[..1])[1..] == d[..1] && "__"[1..] == "_";
    }
  }

  lemma SplitBeyond(o: string, n: string, d: string)
    requires |n| >= |o| + 2
    ensures HasPrefix(o + "__" + d, n + "__") <==> ReadsAs(o, d, n)
  {
    var k := |o| + 2;
    var s, t, e := o + "__" + d, n + "__", n[k..] + "__";
    assert t == n[..k] + e && s == (o + "__") + d;
    if |t| <= |s| {
      assert s[..|t|] == (o + "__") + d[..|e|];
      assert s[..|t|][..k] == o + "__" && t[..k] == n[..k];
      assert s[..|t|][k..] == d[..|e|] && t[k..] == e;
    }
  }

  lemma SplitAfter(o: string, n: string, d: string)
    requires Plain(n)
    ensures HasPrefix(o + "__" + d, n + "__") <==> o == n || HasPrefix(o + "_", n + "__")
  {
    var s, t := o + "__" + d, n + "__";
    if HasPrefix(s, t) {
      NoEarlierSplit(n, o, d);
      if |o| == |n| {
        assert s[..|t|][..|n|] == o && t[..|n|] == n;
      } else {
        assert (o + "_")[..|t|] == s[..|t|];
      }
    }
    if o == n { assert s[..|t|] == t; }
    if HasPrefix(o + "_", t) { assert s[..|t|] == (o + "_")[..|t|]; }
  }

  lemma PlainSplitAfter(o: string, n: string, d: string)
    requires Plain(n) && Plain(o)
    ensures HasPrefix(o + "__" + d, n + "__") <==> o == n
  {
    SplitAfter(o, n, d);
    var s, t := o + "__" + d, n + "__";
    if HasPrefix(s, t) {
      assert s == t + s[|t|..];
      SplitIsUnique(o, n, d, s[|t|..]);
    }
  }

  /** An underscore at the end is enough for one organisation's listing to show another one's database. */
  lemma UnderscoreConfuses()
    ensures HasPrefix(DbName("a_", "d"), ListPrefix("a"))
    ensures OrgPart("a_") != OrgPart("a")
  {
    assert AllSafe("a_") && AllSafe("a") && AllSafe("d");
    SafeIsClean("a_");
    SafeIsClean("a");
    SafeIsClean("d");
    assert DbName("a_", "d") == "org_a___d" && ListPrefix("a") == "org_a__";
  }

  /** Among plain organisations, names are distinct unless organisation and database coincide after sanitising. */
  lemma NamesAreInjective(org: string, db: string, org': string, db': string)
    requires Plain(OrgPart(org)) && Plain(OrgPart(org'))
    ensures DbName(org, db) == DbName(org', db') <==> OrgPart(org) == OrgPart(org') && DbPart(db) == DbPart(db')
  {
    hide *;
    NameSplits(org, db);
    NameSplits(org', db');
    CutFour(OrgPart(org) + "__" + DbPart(db), OrgPart(org') + "__" + DbPart(db'));
    if DbName(org, db) == DbName(org', db') {
      SplitIsUnique(OrgPart(org), OrgPart(org'), DbPart(db), DbPart(db'));
    }
  }

  /** The place of the separator in s + "__" if s is not plain. */
  lemma EarlySplit(s: string) returns (i: nat)
    requires !Plain(s)
    ensures i < |s| && s[i] == '_' && (i + 1 < |s| ==> s[i + 1] == '_')
    ensures Plain(s[..i])
  {
    i := 0;
    while s[i] != '_' || (i + 1 < |s| && s[i + 1] != '_')
      invariant i < |s|
      invariant forall k :: 0 <= k < i && s[k] == '_' ==> s[k + 1] != '_'
      decreases |s| - i
    {
      if i + 1 == |s| { assert false; }
      i := i + 1;
    }
  }

  /**
    Plainness cannot be dropped: every organisation that is not plain, and does not start
    with the separator, shares the physical name of each of its databases with a
    database of a plain organisation.
   */
  lemma OthersClash(org: string, db: string) returns (org': string, db': string)
    requires !Plain(OrgPart(org)) && !HasPrefix(OrgPart(org) + "_", "__")
    ensures Plain(OrgPart(org')) && OrgPart(org') != OrgPart(org)
    ensures DbName(org', db') == DbName(org, db)
  {
    hide *;
    var i := EarlySplit(OrgPart(org));
    SafeParts(org, db, i);
    org', db' := OrgPart(org)[..i], (OrgPart(org) + "__" + DbPart(db))[i + 2..];
    SplitAt(OrgPart(org), DbPart(db), i);
    SafeParses(org');
    SafeParses(db');
    NameSplits(org, db);
    NameSplits(org', db');
  }

  /** The separator occurs at i in the joined parts, with something before and after it. */
  predicate SplitsAt(s: string, i: nat) {
    0 < i && i + 2 < |s| && s[i] == '_' && s[i + 1] == '_'
  }

  /** The name can be cut at a separator other than the one between organisation and database. */
  ghost predicate Ambiguous(o: string, d: string) {
    exists i :: i != |o| && SplitsAt(o + "__" + d, i)
  }

  /** Some database of another organisation has this physical name. */
  ghost predicate Clashes(org: string, db: string) {
    exists org', db' :: DbName(org', db') == DbName(org, db) && OrgPart(org') != OrgPart(org)
  }

  /** For every organisation and database, exactly when the name is shared with another organisation. */
  lemma ClashesExactly(org: string, db: string)
    ensures Clashes(org, db) <==> Ambiguous(OrgPart(org), DbPart(db))
  {
    hide DbName, OrgPart, DbPart, SplitsAt;
    var o, d := OrgPart(org), DbPart(db);
    if Clashes(org, db) {
      var org', db' :| DbName(org', db') == DbName(org, db) && OrgPart(org') != o;
      OtherCut(org, db, org', db');
    }
    if Ambiguous(o, d) {
      var i :| i != |o| && SplitsAt(o + "__" + d, i);
      CutGivesName(org, db, i);
    }
  }

  lemma OtherCut(org: string, db: string, org': string, db': string)
    requires DbName(org', db') == DbName(org, db) && OrgPart(org') != OrgPart(org)
    ensures |OrgPart(org')| != |OrgPart(org)| && SplitsAt(OrgPart(org) + "__" + DbPart(db), |OrgPart(org')|)
  {
    hide OrgPart, DbPart, DbName, SplitsAt;
    NameSplits(org, db);
    NameSplits(org', db');
    NonEmptyParts(org', db');
    CutFour(OrgPart(org) + "__" + DbPart(db), OrgPart(org') + "__" + DbPart(db'));
    CutsDiffer(OrgPart(org), DbPart(db), OrgPart(org'), DbPart(db'));
  }

  lemma CutsDiffer(o: string, d: string, o': string, d': string)
    requires o + "__" + d == o' + "__" + d' && o != o' && o' != "" && d' != ""
    ensures |o'| != |o| && SplitsAt(o + "__" + d, |o'|)
  {
    var s := o' + "__" + d';
    assert s[..|o'|] == o' && (o + "__" + d)[..|o|] == o;
  }

  lemma NonEmptyParts(org: string, db: string)
    ensures OrgPart(org) != "" && DbPart(db) != ""
  {}

  lemma CutGivesName(org: string, db: string, i: nat)
    requires i != |OrgPart(org)| && SplitsAt(OrgPart(org) + "__" + DbPart(db), i)
    ensures Clashes(org, db)
  {
    hide OrgPart, DbPart, DbName;
    var s := OrgPart(org) + "__" + DbPart(db);
    var org', db' := s[..i], s[i + 2..];
    JoinedIsSafe(org, db);
    SafeParses(org');
    SafeParses(db');
    NameSplits(org, db);
    NameSplits(org', db');
    assert s == org' + "__" + db';
    assert DbName(org', db') == DbName(org, db);
  }

  lemma JoinedIsSafe(org: string, db: string)
    ensures AllSafe(OrgPart(org) + "__" + DbPart(db))
  {
    SanitizedIsSafe(OrDefault(Clean(org)));
    SanitizedIsSafe(OrDefault(Clean(db)));
  }

  lemma SplitAt(o: string, d: string, i: nat)
    requires i < |o| && o[i] == '_' && (i + 1 < |o| ==> o[i + 1] == '_')
    ensures o[..i] + "__" + (o + "__" + d)[i + 2..] == o + "__" + d
    ensures i == 0 ==> HasPrefix(o + "_", "__")
    ensures d != "" ==> (o + "__" + d)[i + 2..] != ""
  {}

  lemma SafeParses(s: string)
    requires AllSafe(s) && s != ""
    ensures OrgPart(s) == s && DbPart(s) == s
  {
    SafeIsClean(s);
  }

  lemma SafeParts(org: string, db: string, i: nat)
    requires i < |OrgPart(org)|
    ensures AllSafe(OrgPart(org)[..i]) && AllSafe((OrgPart(org) + "__" + DbPart(db))[i + 2..])
    ensures DbPart(db) != ""
  {
    SanitizedIsSafe(OrDefault(Clean(org)));
    SanitizedIsSafe(OrDefault(Clean(db)));
  }

  /** A listed id leads back to the name it was cut from exactly when it is not empty and safe. */
  lemma ListedIdLeadsBack(org: string, name: string)
    requires Clean(org) != "" && AllSafe(Clean(org)) && HasPrefix(name, ListPrefix(org))
    ensures var id := name[|ListPrefix(org)|..];
            DbName(org, id) == name <==> id != "" && AllSafe(id)
  {
    var prefix := ListPrefix(org);
    var id := name[|prefix|..];
    SanitizedIsSafe(Clean(org));
    SanitizedIsSafe(OrDefault(Clean(id)));
    assert name == prefix + id;
    assert DbName(org, id) == prefix + DbPart(id);
    assert (prefix + DbPart(id))[|prefix|..] == DbPart(id);
    if id != "" && AllSafe(id) { SafeIsClean(id); }
  }

  /** Every id listed for a database created through dbName is found again by GetDatabase. */
  lemma ListedIsFound(names: seq<string>, org: string, db: string)
    requires Clean(org) != "" && AllSafe(Clean(org)) && DbName(org, db) in names
    ensures DbPart(db) in Listed(names, org)
    ensures DbName(org, DbPart(db)) == DbName(org, db)
    ensures Found(names, org, DbPart(db))
  {
    ListedExactlyWhenSafe(org, db);
    SanitizedIsSafe(OrDefault(Clean(db)));
    SanitizedIsSafe(Clean(org));
    var name, prefix := DbName(org, db), ListPrefix(org);
    assert name == prefix + DbPart(db);
    assert name[|prefix|..] == DbPart(db);
    ListedIdLeadsBack(org, name);
    ListedMeansPresent(names, org, DbPart(db));
  }

  /** The listing holds an id exactly when prefix and id together are a physical name. */
  lemma {:induction false} ListedMeansPresent(names: seq<string>, org: string, id: string)
    ensures id in Listed(names, org) <==> ListPrefix(org) + id in names
  {
    hide ListPrefix;
    var prefix := ListPrefix(org);
    if names != [] {
      var init, last := names[..|names| - 1], names[|names| - 1];
      ListedMeansPresent(init, org, id);
      assert names == init + [last];
      assert (prefix + id)[..|prefix|] == prefix && (prefix + id)[|prefix|..] == id;
      assert HasPrefix(last, prefix) ==> last == prefix + last[|prefix|..];
    }
  }

  /** The listing goes through the names one by one, in their order. */
  lemma {:induction false} ListedInOrder(a: seq<string>, b: seq<string>, org: string)
    ensures Listed(a + b, org) == Listed(a, org) + Listed(b, org)
    ensures forall id: string :: Listed([ListPrefix(org) + id], org) == [id]
    ensures forall name: string :: !HasPrefix(name, ListPrefix(org)) ==> Listed([name], org) == []
  {
    hide ListPrefix;
    forall id: string ensures Listed([ListPrefix(org) + id], org) == [id] {
      var name: string := ListPrefix(org) + id;
      ListedOne(name, org);
      assert name[..|ListPrefix(org)|] == ListPrefix(org) && name[|ListPrefix(org)|..] == id;
    }
    forall name: string | !HasPrefix(name, ListPrefix(org)) ensures Listed([name], org) == [] {
      ListedOne(name, org);
    }
    if b == [] {
      assert a + b == a;
    } else {
      ListedInOrder(a, b[..|b| - 1], org);
      assert (a + b)[..|a + b| - 1] == a + b[..|b| - 1];
    }
  }

  lemma ListedOne(name: string, org: string)
    ensures Listed([name], org) == if HasPrefix(name, ListPrefix(org)) then [name[|ListPrefix(org)|..]] else []
  {
    hide ListPrefix;
    var one: seq<string> := [name];
    assert one[..0] == [];
  }
}
