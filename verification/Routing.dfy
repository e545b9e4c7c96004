/** Maps ordered by key from the greatest down, ignoring case, and the search for the longest prefix in them. */
module PrefixMaps {
  import opened Options

  /** Case is ignored by comparing in upper case. */
  function Fold(c: char): char {
    if 'a' <= c <= 'z' then c - ('a' - 'A') else c
  }

  /** `iLess` */
  predicate Less(l: string, r: string)
    decreases |l|
  {
    r != "" && (l == "" || Fold(l[0]) < Fold(r[0]) || (Fold(l[0]) == Fold(r[0]) && Less(l[1..], r[1..])))
  }

  /** `iStartsWith` */
  predicate StartsWith(m: string, s: string) {
    |s| <= |m| && forall i :: 0 <= i < |s| ==> Fold(m[i]) == Fold(s[i])
  }

  predicate Same(l: string, r: string) {
    |l| == |r| && StartsWith(l, r)
  }

  datatype Entry<+V> = Entry(key: string, value: V)

  /** The order in which the map is iterated. */
  predicate Descending<V>(es: seq<Entry<V>>) {
    forall i, j :: 0 <= i < j < |es| ==> Less(es[j].key, es[i].key)
  }

  /** The first entry whose key is not before `key` in the map's order. */
  function LowerBound<V>(es: seq<Entry<V>>, key: string): (i: nat)
    ensures i <= |es|
    ensures forall k :: 0 <= k < i ==> Less(key, es[k].key)
    ensures i < |es| ==> !Less(key, es[i].key)
  {
    if es == [] || !Less(key, es[0].key) then 0
    else
      var i := LowerBound(es[1..], key);
      assert forall k :: 0 < k < i + 1 ==> es[k] == es[1..][k - 1];
      i + 1
  }

  /** The reference: look at every entry, keep the longest prefix of `url`. */
  function FullSearch<V>(es: seq<Entry<V>>, url: string): Option<Entry<V>> {
    if es == [] then None
    else
      var rest := FullSearch(es[1..], url);
      if StartsWith(url, es[0].key) && (rest.Some? ==> |es[0].key| > |rest.value.key|) then Some(es[0]) else rest
  }

  /** `r` is the one longest prefix of `url` in the map, whatever the order of the entries. */
  ghost predicate IsLongest<V>(es: seq<Entry<V>>, url: string, r: Option<Entry<V>>) {
    match r
    case None => forall e :: e in es ==> !StartsWith(url, e.key)
    case Some(best) =>
      && best in es && StartsWith(url, best.key)
      && forall e :: e in es && StartsWith(url, e.key) && e != best ==> |e.key| < |best.key|
  }

  predicate DistinctKeys<V>(es: seq<Entry<V>>) {
    forall i, j :: 0 <= i < j < |es| ==> !Same(es[i].key, es[j].key)
  }

  // ----- The order -----

  lemma {:induction false} LessIrreflexive(l: string, r: string)
    requires Same(l, r)
    ensures !Less(l, r)
    decreases |l|
  {
    if l != "" {
      SameTail(l, r);
      LessIrreflexive(l[1..], r[1..]);
    }
  }

  lemma SameTail(l: string, r: string)
    requires l != "" && StartsWith(l, r) && r != ""
    ensures StartsWith(l[1..], r[1..])
  {
    forall i | 0 <= i < |r[1..]| ensures Fold(l[1..][i]) == Fold(r[1..][i]) {
      assert l[1..][i] == l[i + 1] && r[1..][i] == r[i + 1];
    }
  }

  lemma {:induction false} LessAsymmetric(l: string, r: string)
    requires Less(l, r)
    ensures !Less(r, l)
    decreases |l|
  {
    if l != "" && Less(l[1..], r[1..]) { LessAsymmetric(l[1..], r[1..]); }
  }

  lemma {:induction false} LessTransitive(l: string, m: string, r: string)
    requires Less(l, m) && Less(m, r)
    ensures Less(l, r)
    decreases |l|
  {
    if l != "" && Less(l[1..], m[1..]) && Less(m[1..], r[1..]) { LessTransitive(l[1..], m[1..], r[1..]); }
  }

  lemma {:induction false} LessTotal(l: string, r: string)
    ensures Less(l, r) || Less(r, l) || Same(l, r)
    decreases |l|
  {
    if l != "" && r != "" {
      LessTotal(l[1..], r[1..]);
      if Same(l[1..], r[1..]) && Fold(l[0]) == Fold(r[0]) {
        forall i | 0 <= i < |r| ensures Fold(l[i]) == Fold(r[i]) {
          if i > 0 { assert l[1..][i - 1] == l[i] && r[1..][i - 1] == r[i]; }
        }
      }
    }
  }

  /** A prefix is never after the whole. */
  lemma {:induction false} PrefixNotAfter(m: string, s: string)
    requires StartsWith(m, s)
    ensures !Less(m, s)
    decreases |m|
  {
    if s != "" {
      SameTail(m, s);
      PrefixNotAfter(m[1..], s[1..]);
    }
  }

  /** Of two prefixes of the same text the longer one is greater. */
  lemma {:induction false} LongerIsGreater(m: string, s: string, t: string)
    requires StartsWith(m, s) && StartsWith(m, t) && |s| < |t|
    ensures Less(s, t)
    decreases |m|
  {
    if s != "" {
      assert Fold(s[0]) == Fold(m[0]) == Fold(t[0]);
      SameTail(m, s);
      SameTail(m, t);
      LongerIsGreater(m[1..], s[1..], t[1..]);
    }
  }

  // ----- The search -----

  lemma DescendingIsDistinct<V>(es: seq<Entry<V>>)
    requires Descending(es)
    ensures DistinctKeys(es)
  {
    hide Less;
    forall i, j | 0 <= i < j < |es| ensures !Same(es[i].key, es[j].key) {
      if Same(es[i].key, es[j].key) {
        SameSymmetric(es[i].key, es[j].key);
        LessIrreflexive(es[j].key, es[i].key);
      }
    }
  }

  lemma SameSymmetric(l: string, r: string)
    requires Same(l, r)
    ensures Same(r, l)
  {
  }

  lemma {:induction false} FullSearchIsLongest<V>(es: seq<Entry<V>>, url: string)
    requires DistinctKeys(es)
    ensures IsLongest(es, url, FullSearch(es, url))
  {
    hide StartsWith, Same;
    if es != [] {
      forall i, j | 0 <= i < j < |es[1..]| ensures !Same(es[1..][i].key, es[1..][j].key) {
        assert es[1..][i] == es[i + 1] && es[1..][j] == es[j + 1];
      }
      FullSearchIsLongest(es[1..], url);
      var rest := FullSearch(es[1..], url);
      assert forall e :: e in es <==> e == es[0] || e in es[1..];
      if StartsWith(url, es[0].key) && rest.Some? && |es[0].key| == |rest.value.key| {
        var j :| 0 <= j < |es[1..]| && es[1..][j] == rest.value;
        assert es[j + 1] == rest.value;
        PrefixesSame(url, es[0].key, rest.value.key);
      }
    }
  }

  lemma PrefixesSame(m: string, s: string, t: string)
    requires StartsWith(m, s) && StartsWith(m, t) && |s| == |t|
    ensures Same(s, t)
  {
  }

  lemma LongestIsUnique<V>(es: seq<Entry<V>>, url: string, a: Option<Entry<V>>, b: Option<Entry<V>>)
    requires IsLongest(es, url, a) && IsLongest(es, url, b)
    ensures a == b
  {
    hide StartsWith;
  }

  /** The first prefix met from `lower_bound(url)` on, or from any earlier point, is the longest one. */
  lemma FirstPrefixIsLongest<V>(es: seq<Entry<V>>, url: string, from: nat, i: nat)
    requires Descending(es) && from <= LowerBound(es, url) && from <= i <= |es|
    requires forall k :: from <= k < i ==> !StartsWith(url, es[k].key)
    requires i < |es| ==> StartsWith(url, es[i].key)
    ensures FullSearch(es, url) == if i < |es| then Some(es[i]) else None
  {
    hide StartsWith, Less, FullSearch;
    var r := if i < |es| then Some(es[i]) else None;
    forall k | 0 <= k < from ensures !StartsWith(url, es[k].key) {
      if StartsWith(url, es[k].key) { PrefixNotAfter(url, es[k].key); }
    }
    if i < |es| {
      forall k | i < k < |es| && StartsWith(url, es[k].key) ensures |es[k].key| < |es[i].key| {
        LaterIsShorter(url, es[i].key, es[k].key);
      }
    }
    assert IsLongest(es, url, r);
    DescendingIsDistinct(es);
    FullSearchIsLongest(es, url);
    LongestIsUnique(es, url, r, FullSearch(es, url));
  }

  lemma LaterIsShorter(m: string, s: string, t: string)
    requires StartsWith(m, s) && StartsWith(m, t) && Less(t, s)
    ensures |t| < |s|
  {
    hide Less;
    if |s| < |t| {
      LongerIsGreater(m, s, t);
      LessAsymmetric(s, t);
    } else if |s| == |t| {
      PrefixesSame(m, t, s);
      LessIrreflexive(t, s);
    }
  }

  // ----- Insertion -----

  /** `std::map::insert`: an entry whose key is already there, ignoring case, is dropped. */
  function Inserted<V>(es: seq<Entry<V>>, e: Entry<V>): seq<Entry<V>> {
    var i := LowerBound(es, e.key);
    if i < |es| && Same(es[i].key, e.key) then es else es[..i] + [e] + es[i..]
  }

  lemma InsertKeepsOrder<V>(es: seq<Entry<V>>, e: Entry<V>)
    requires Descending(es)
    ensures Descending(Inserted(es, e))
    ensures forall k :: 0 <= k < |es| && Same(es[k].key, e.key) ==> Inserted(es, e) == es
    ensures (forall k :: 0 <= k < |es| ==> !Same(es[k].key, e.key)) ==>
              |Inserted(es, e)| == |es| + 1 && forall x :: x in Inserted(es, e) <==> x in es || x == e
  {
    hide Less, Same;
    var i := LowerBound(es, e.key);
    forall k | 0 <= k < i ensures !Same(es[k].key, e.key) {
      if Same(es[k].key, e.key) { SameSymmetric(es[k].key, e.key); LessIrreflexive(e.key, es[k].key); }
    }
    forall k | i < k < |es| ensures !Same(es[k].key, e.key) && Less(es[k].key, e.key) {
      BelowBound(es[k].key, es[i].key, e.key);
    }
    if i < |es| { LessTotal(es[i].key, e.key); }
  }

  /** What is under a key that is not above `key` is under `key`. */
  lemma BelowBound(low: string, bound: string, key: string)
    requires Less(low, bound) && !Less(key, bound)
    ensures Less(low, key) && !Same(low, key)
  {
    LessTotal(bound, key);
    if Same(bound, key) {
      LessSame(low, bound, key);
    } else {
      LessTransitive(low, bound, key);
    }
    if Same(low, key) { LessIrreflexive(low, key); }
  }

  lemma {:induction false} LessSame(l: string, r: string, r': string)
    requires Less(l, r) && Same(r, r')
    ensures Less(l, r')
    decreases |l|
  {
    if l != "" {
      SameTail(r, r');
      if Less(l[1..], r[1..]) { LessSame(l[1..], r[1..], r'[1..]); }
    }
  }

  /** A new entry answers for its own key exactly if no key equal to it, ignoring case, was there before. */
  lemma NewEntryFoundExact<V>(es: seq<Entry<V>>, e: Entry<V>)
    requires Descending(es) && e !in es
    ensures FullSearch(Inserted(es, e), e.key) == Some(e) <==> forall k :: 0 <= k < |es| ==> !Same(es[k].key, e.key)
  {
    hide Less, Same, Inserted, FullSearch, LowerBound, Descending;
    InsertKeepsOrder(es, e);
    var after := Inserted(es, e);
    DescendingIsDistinct(after);
    FullSearchIsLongest(after, e.key);
    var r := FullSearch(after, e.key);
    if forall k :: 0 <= k < |es| ==> !Same(es[k].key, e.key) {
      assert e in after;
      forall x | x in after && x != e && StartsWith(e.key, x.key) ensures |x.key| < |e.key| {
        assert x in es;
        var k :| 0 <= k < |es| && es[k] == x;
        if |x.key| == |e.key| { PrefixesSame(e.key, x.key, e.key); }
      }
      LongestIsUnique(after, e.key, r, Some(e));
    }
  }

  // ----- Which texts are equal, prefixes and in order -----

  /** The two cases of one ASCII letter. */
  predicate OneLetter(a: char, b: char) {
    var i, j := a as int, b as int;
    (65 <= i <= 90 && j == i + 32) || (65 <= j <= 90 && i == j + 32)
  }

  predicate Agree(a: char, b: char) { a == b || OneLetter(a, b) }

  predicate AllAgree(l: string, r: string) {
    |l| == |r| && forall i :: 0 <= i < |l| ==> Agree(l[i], r[i])
  }

  /** Two characters count as equal exactly when they are, or are the two cases of one ASCII letter. */
  lemma FoldExact(a: char, b: char)
    ensures Fold(a) == Fold(b) <==> Agree(a, b)
  {
  }

  /** `s` starts `m` exactly when `m` is, up to the case of its letters, `s` followed by some text. */
  lemma StartsWithExact(m: string, s: string)
    ensures StartsWith(m, s) <==> exists rest: string :: AllAgree(m, s + rest)
    ensures Same(m, s) <==> AllAgree(m, s)
  {
    hide Fold, OneLetter;
    forall a, b ensures Fold(a) == Fold(b) <==> Agree(a, b) { FoldExact(a, b); }
    if StartsWith(m, s) {
      assert AllAgree(m, s + m[|s|..]);
    }
    if rest: string :| AllAgree(m, s + rest) {
      forall i | 0 <= i < |s| ensures Agree(m[i], s[i]) { assert (s + rest)[i] == s[i]; }
    }
  }

  /** The place of a character in the order: capital letters stand for both cases. */
  function Place(c: char): int {
    var i := c as int;
    if 97 <= i <= 122 then i - 32 else i
  }

  /** `l` goes with `r` for `i` characters, and then ends or has the character that comes first. */
  predicate FirstAt(l: string, r: string, i: nat) {
    && i <= |l| && i < |r|
    && (forall j :: 0 <= j < i ==> Agree(l[j], r[j]))
    && (i == |l| || Place(l[i]) < Place(r[i]))
  }

  /** The order of the maps is the dictionary order that ignores case. */
  lemma {:induction false} LessExact(l: string, r: string)
    ensures Less(l, r) <==> exists i: nat :: FirstAt(l, r, i)
    decreases |l|
  {
    hide FirstAt;
    if r == "" || l == "" {
      NoneFirst(l, r);
    } else {
      LessExact(l[1..], r[1..]);
      FirstTail(l, r);
    }
  }

  lemma NoneFirst(l: string, r: string)
    requires r == "" || l == ""
    ensures (exists i: nat :: FirstAt(l, r, i)) <==> l == "" && r != ""
  {
    if l == "" && r != "" { assert FirstAt(l, r, 0); }
  }

  lemma FirstTail(l: string, r: string)
    requires l != "" && r != ""
    ensures (exists i: nat :: FirstAt(l, r, i)) <==>
            Fold(l[0]) < Fold(r[0]) || (Fold(l[0]) == Fold(r[0]) && exists i: nat :: FirstAt(l[1..], r[1..], i))
  {
    FoldExact(l[0], r[0]);
    forall i: nat | FirstAt(l, r, i)
      ensures Fold(l[0]) < Fold(r[0]) || (Fold(l[0]) == Fold(r[0]) && FirstAt(l[1..], r[1..], i - 1)) {
      if i > 0 {
        assert forall j :: 0 <= j < i - 1 ==> l[1..][j] == l[j + 1] && r[1..][j] == r[j + 1];
      }
    }
    if Fold(l[0]) < Fold(r[0]) { assert FirstAt(l, r, 0); }
    if Fold(l[0]) == Fold(r[0]) {
      forall i: nat | FirstAt(l[1..], r[1..], i) ensures FirstAt(l, r, i + 1) {
        assert forall j :: 0 < j <= i ==> l[j] == l[1..][j - 1] && r[j] == r[1..][j - 1];
      }
    }
  }
}

/** The applications of the server, by URL root, and the routes of an application, by URL prefix. */
module Routing {
  import opened Options
  import opened PrefixMaps

  datatype App = App(name: string, urlRoot: string)

  class ApplicationMgr {
    var mounted: bool
    var apps: seq<Entry<App>>

    ghost predicate Valid() reads this {
      Descending(apps)
    }

    constructor ()
      ensures Valid() && !mounted && apps == []
    {
      mounted, apps := false, [];
    }

    method IsExists(name: string) returns (found: bool)
      ensures found <==> exists e :: e in apps && e.value.name == name
    {
      var i := 0;
      while i < |apps|
        invariant i <= |apps| && forall k :: 0 <= k < i ==> apps[k].value.name != name
      {
        if apps[i].value.name == name { return true; }
        i := i + 1;
      }
      found := false;
    }

    /** True even when the URL root is taken and the application is dropped. */
    method MountApplication(app: App) returns (ok: bool)
      requires Valid()
      modifies this`apps
      ensures Valid()
      ensures ok <==> !mounted && !exists e :: e in old(apps) && e.value.name == app.name
      ensures apps == if ok then Inserted(old(apps), Entry(app.urlRoot, app)) else old(apps)
    {
      if mounted { return false; }
      var found := IsExists(app.name);
      if found { return false; }
      InsertKeepsOrder(apps, Entry(app.urlRoot, app));
      apps := Inserted(apps, Entry(app.urlRoot, app));
      ok := true;
    }

    /** The application with the longest URL root that starts `url`. */
    method FindByURL(url: string) returns (r: Option<App>)
      requires Valid()
      ensures var best := FullSearch(apps, url); r == if best.Some? then Some(best.value.value) else None
    {
      hide FullSearch, StartsWith, Less;
      var from := LowerBound(apps, url);
      var l := from;
      if l == |apps| {
        FirstPrefixIsLongest(apps, url, from, l);
        return None;
      }
      if StartsWith(url, apps[l].key) {
        FirstPrefixIsLongest(apps, url, from, l);
        return Some(apps[l].value);
      }
      l := l + 1;
      while l != |apps|
        invariant from <= l <= |apps|
        invariant forall k :: from <= k < l ==> !StartsWith(url, apps[k].key)
        decreases |apps| - l
      {
        if StartsWith(url, apps[l].key) {
          FirstPrefixIsLongest(apps, url, from, l);
          return Some(apps[l].value);
        }
        l := l + 1;
      }
      FirstPrefixIsLongest(apps, url, from, l);
      r := None;
    }
  }

  class StartsWithRoutingTable<Item> {
    var routes: seq<Entry<Item>>

    ghost predicate Valid() reads this {
      Descending(routes)
    }

    constructor ()
      ensures Valid() && routes == []
    {
      routes := [];
    }

    method Insert(urlMatcher: string, item: Item)
      requires Valid()
      modifies this
      ensures Valid() && routes == Inserted(old(routes), Entry(urlMatcher, item))
    {
      InsertKeepsOrder(routes, Entry(urlMatcher, item));
      routes := Inserted(routes, Entry(urlMatcher, item));
    }

    /** The route of the longest prefix; `urlExists` is raised when there is one and never lowered. */
    method Match(url: string, urlExistsBefore: bool) returns (r: Option<Entry<Item>>, urlExists: bool)
      requires Valid()
      ensures r == FullSearch(routes, url)
      ensures urlExists <==> urlExistsBefore || r.Some?
    {
      hide FullSearch, StartsWith, Less;
      urlExists := urlExistsBefore;
      var it := 0;
      while it != |routes|
        invariant it <= |routes|
        invariant forall k :: 0 <= k < it ==> !StartsWith(url, routes[k].key)
        decreases |routes| - it
      {
        if StartsWith(url, routes[it].key) {
          FirstPrefixIsLongest(routes, url, 0, it);
          urlExists := true;
          return Some(routes[it]), urlExists;
        }
        it := it + 1;
      }
      FirstPrefixIsLongest(routes, url, 0, it);
      r := None;
    }
  }
}
