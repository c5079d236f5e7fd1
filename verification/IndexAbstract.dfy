/**
 The search index abstract: URL hashes grouped by their host part, printed as one
 text, and the parser that reads the text back, with or without a limit.
 */
module IndexAbstract {
  import opened Wrappers
  import opened Base64

  const HASH_LENGTH := 12
  const HOST_HASH_LENGTH := 6

  predicate ValidHash(h: string) {
    |h| == HASH_LENGTH && AllSymbols(h)
  }

  function PathOf(h: string): string
    requires |h| == HASH_LENGTH
  {
    h[..HOST_HASH_LENGTH]
  }

  function HostOf(h: string): string
    requires |h| == HASH_LENGTH
  {
    h[HOST_HASH_LENGTH..]
  }

  predicate HashPart(part: string) {
    |part| == HOST_HASH_LENGTH && AllSymbols(part)
  }

  // ---------------------------------------------------------------------
  // Base64 order

  /** Symbols in the order of the alphabet, every other character after them. */
  function Rank(c: char): nat {
    if Value(c) >= 0 then Value(c) else |ALPHABET| + c as int
  }

  method Base64Order(c: char) returns (rank: nat)
    ensures rank == Rank(c)
  {
    for i := 0 to |ALPHABET|
      invariant !(0 <= Value(c) < i)
    {
      AlphabetSpelled(i);
      SymbolsDistinct(i);
      if ALPHABET[i] == c {
        return i;
      }
    }
    AlphabetSpelled(0);
    return |ALPHABET| + c as int;
  }

  function Compare(a: string, b: string): (r: int)
    ensures -1 <= r <= 1
    decreases |a|
  {
    if a == "" then (if b == "" then 0 else -1)
    else if b == "" then 1
    else if Rank(a[0]) < Rank(b[0]) then -1
    else if Rank(a[0]) > Rank(b[0]) then 1
    else Compare(a[1..], b[1..])
  }

  method CompareBase64Strings(a: string, b: string) returns (r: int)
    ensures r == Compare(a, b)
  {
    assert a[0..] == a && b[0..] == b;
    var i := 0;
    while i < |a| && i < |b|
      invariant i <= |a| && i <= |b|
      invariant Compare(a[i..], b[i..]) == Compare(a, b)
    {
      var av := Base64Order(a[i]);
      var bv := Base64Order(b[i]);
      if av < bv { return -1; }
      if av > bv { return 1; }
      assert a[i..][1..] == a[i + 1..] && b[i..][1..] == b[i + 1..];
      i := i + 1;
    }
    if |a| < |b| { return -1; }
    if |a| > |b| { return 1; }
    return 0;
  }

  lemma {:induction false} CompareReverses(a: string, b: string)
    ensures Compare(b, a) == -Compare(a, b)
    decreases |a|
  {
    if a == "" || b == "" {
    } else {
      CompareReverses(a[1..], b[1..]);
    }
  }

  lemma {:induction false} CompareEqual(a: string, b: string)
    ensures Compare(a, b) == 0 <==> a == b
    decreases |a|
  {
    if a == "" || b == "" {
    } else {
      CompareEqual(a[1..], b[1..]);
      if Rank(a[0]) == Rank(b[0]) { RankInjective(a[0], b[0]); }
      assert a == [a[0]] + a[1..] && b == [b[0]] + b[1..];
    }
  }

  lemma RankInjective(c: char, d: char)
    requires Rank(c) == Rank(d)
    ensures c == d
  {
    AlphabetSpelled(0);
  }

  lemma {:induction false} CompareTransitive(a: string, b: string, c: string)
    requires Compare(a, b) <= 0 && Compare(b, c) <= 0
    ensures Compare(a, c) <= 0
    ensures Compare(a, b) < 0 || Compare(b, c) < 0 ==> Compare(a, c) < 0
    decreases |a|
  {
    if a == "" || b == "" || c == "" {
    } else {
      if Rank(a[0]) == Rank(b[0]) && Rank(b[0]) == Rank(c[0]) {
        CompareTransitive(a[1..], b[1..], c[1..]);
      }
    }
  }

  ghost predicate Ascending(ss: seq<string>) {
    forall i, j :: 0 <= i < j < |ss| ==> Compare(ss[i], ss[j]) <= 0
  }

  /** What sorting promises, whatever the algorithm. */
  ghost predicate IsSortOf(sorted: seq<string>, ss: seq<string>) {
    Ascending(sorted) && multiset(sorted) == multiset(ss)
  }

  method Insert(sorted: seq<string>, s: string) returns (r: seq<string>)
    requires Ascending(sorted)
    ensures IsSortOf(r, sorted + [s])
  {
    hide Compare, Rank;
    var k: nat := |sorted|;
    while k > 0 && Compare(sorted[k - 1], s) > 0
      invariant k <= |sorted|
      invariant forall j :: k <= j < |sorted| ==> Compare(s, sorted[j]) <= 0
    {
      CompareReverses(sorted[k - 1], s);
      k := k - 1;
    }
    r := sorted[..k] + [s] + sorted[k..];
    InsertedAscends(sorted, k, s);
    InsertedHolds(sorted, k, s);
    hide Ascending;
  }

  lemma InsertedHolds(sorted: seq<string>, k: nat, s: string)
    requires k <= |sorted|
    ensures multiset(sorted[..k] + [s] + sorted[k..]) == multiset(sorted + [s])
  {
    assert sorted == sorted[..k] + sorted[k..];
  }

  lemma InsertedAscends(sorted: seq<string>, k: nat, s: string)
    requires Ascending(sorted) && k <= |sorted|
    requires k > 0 ==> Compare(sorted[k - 1], s) <= 0
    requires forall j :: k <= j < |sorted| ==> Compare(s, sorted[j]) <= 0
    ensures Ascending(sorted[..k] + [s] + sorted[k..])
  {
    hide Compare;
    var r := sorted[..k] + [s] + sorted[k..];
    forall j | 0 <= j < k ensures Compare(sorted[j], s) <= 0 {
      if j < k - 1 { CompareTransitive(sorted[j], sorted[k - 1], s); }
    }
    forall i, j | 0 <= i < j < |r| ensures Compare(r[i], r[j]) <= 0 {
      assert r[i] == if i < k then sorted[i] else if i == k then s else sorted[i - 1];
      assert r[j] == if j < k then sorted[j] else if j == k then s else sorted[j - 1];
    }
  }

  /** Stands for the library sort. */
  method SortStrings(ss: seq<string>) returns (sorted: seq<string>)
    ensures IsSortOf(sorted, ss)
  {
    sorted := [];
    for i := 0 to |ss|
      invariant IsSortOf(sorted, ss[..i])
    {
      assert ss[..i + 1] == ss[..i] + [ss[i]];
      sorted := Insert(sorted, ss[i]);
    }
    assert ss[..|ss|] == ss;
  }

  // ---------------------------------------------------------------------
  // Groups

  datatype Group = Group(host: string, paths: seq<string>)

  function Concat(parts: seq<string>): string {
    if parts == [] then "" else Concat(parts[..|parts| - 1]) + parts[|parts| - 1]
  }

  function GroupText(g: Group): string {
    g.host + ":" + Concat(g.paths)
  }

  /** Group texts separated by commas. */
  function Body(groups: seq<Group>): string {
    if groups == [] then ""
    else if |groups| == 1 then GroupText(groups[0])
    else GroupText(groups[0]) + "," + Body(groups[1..])
  }

  function Hashes(g: Group): seq<string> {
    seq(|g.paths|, k requires 0 <= k < |g.paths| => g.paths[k] + g.host)
  }

  function AllHashes(groups: seq<Group>): seq<string> {
    if groups == [] then [] else Hashes(groups[0]) + AllHashes(groups[1..])
  }

  /** A host and any paths on it, in any order. */
  predicate Formed(g: Group) {
    HashPart(g.host) && forall k :: 0 <= k < |g.paths| ==> HashPart(g.paths[k])
  }

  ghost predicate WellFormed(g: Group) {
    Formed(g) && Ascending(g.paths)
  }

  ghost predicate Ordered(groups: seq<Group>) {
    && (forall k :: 0 <= k < |groups| ==> WellFormed(groups[k]))
    && forall i, j :: 0 <= i < j < |groups| ==> Compare(groups[i].host, groups[j].host) < 0
  }

  /** The paths of the valid hashes on one host, in input order. */
  function PathsOn(hashes: seq<string>, host: string): seq<string> {
    if hashes == [] then []
    else
      var h := hashes[|hashes| - 1];
      PathsOn(hashes[..|hashes| - 1], host) + if ValidHash(h) && HostOf(h) == host then [PathOf(h)] else []
  }

  function ValidHashes(hashes: seq<string>): seq<string> {
    if hashes == [] then []
    else
      var h := hashes[|hashes| - 1];
      ValidHashes(hashes[..|hashes| - 1]) + if ValidHash(h) then [h] else []
  }

  lemma {:induction false} PathsOnParts(hashes: seq<string>, host: string)
    ensures forall k :: 0 <= k < |PathsOn(hashes, host)| ==> HashPart(PathsOn(hashes, host)[k])
    ensures PathsOn(hashes, host) != [] ==> HashPart(host)
  {
    if hashes == [] {
    } else {
      PathsOnParts(hashes[..|hashes| - 1], host);
    }
  }

  /** A valid hash occurs as often as its path does on its host. */
  lemma {:induction false} PathsOnCount(hashes: seq<string>, h: string)
    requires |h| == HASH_LENGTH
    ensures multiset(PathsOn(hashes, HostOf(h)))[PathOf(h)] == multiset(ValidHashes(hashes))[h]
  {
    if hashes == [] {
    } else {
      var front, last := hashes[..|hashes| - 1], hashes[|hashes| - 1];
      PathsOnCount(front, h);
      if |last| == HASH_LENGTH {
        SameHash(last, h);
      }
      hide HostOf, PathOf;
    }
  }

  lemma SameHash(a: string, b: string)
    requires |a| == |b| == HASH_LENGTH
    ensures HostOf(a) == HostOf(b) && PathOf(a) == PathOf(b) <==> a == b
  {
    assert a == PathOf(a) + HostOf(a) && b == PathOf(b) + HostOf(b);
  }

  lemma {:induction false} HashesCount(g: Group, h: string)
    requires |h| == HASH_LENGTH && |g.host| == HOST_HASH_LENGTH
    requires forall k :: 0 <= k < |g.paths| ==> |g.paths[k]| == HOST_HASH_LENGTH
    ensures multiset(Hashes(g))[h] == if g.host == HostOf(h) then multiset(g.paths)[PathOf(h)] else 0
    decreases |g.paths|
  {
    if g.paths == [] {
    } else {
      var init, last := g.paths[..|g.paths| - 1], g.paths[|g.paths| - 1];
      HashesCount(Group(g.host, init), h);
      assert Hashes(g) == Hashes(Group(g.host, init)) + [last + g.host];
      assert g.paths == init + [last];
      assert last + g.host == h <==> last == PathOf(h) && g.host == HostOf(h) by {
        assert (last + g.host)[..HOST_HASH_LENGTH] == last && (last + g.host)[HOST_HASH_LENGTH..] == g.host;
        assert h == PathOf(h) + HostOf(h);
      }
    }
  }

  /** The hashes on a host come from the one group of that host. */
  lemma {:induction false} AllHashesCount(groups: seq<Group>, h: string)
    requires Ordered(groups) && |h| == HASH_LENGTH
    ensures (forall k :: 0 <= k < |groups| ==> groups[k].host != HostOf(h)) ==> multiset(AllHashes(groups))[h] == 0
    ensures forall k :: 0 <= k < |groups| && groups[k].host == HostOf(h) ==>
      multiset(AllHashes(groups))[h] == multiset(groups[k].paths)[PathOf(h)]
  {
    if groups == [] {
    } else {
      var rest := groups[1..];
      AllHashesCount(rest, h);
      HashesCount(groups[0], h);
      forall k | 1 <= k < |groups| ensures groups[k].host != groups[0].host && rest[k - 1] == groups[k] {
        CompareEqual(groups[0].host, groups[k].host);
      }
    }
  }

  lemma {:induction false} AllHashesLength(groups: seq<Group>)
    requires forall k :: 0 <= k < |groups| ==> WellFormed(groups[k])
    ensures forall h :: h in AllHashes(groups) ==> |h| == HASH_LENGTH
  {
    if groups == [] {
    } else {
      AllHashesLength(groups[1..]);
    }
  }

  lemma {:induction false} ValidHashesLength(hashes: seq<string>)
    ensures forall h :: h in ValidHashes(hashes) ==> |h| == HASH_LENGTH
  {
    if hashes == [] {
    } else {
      ValidHashesLength(hashes[..|hashes| - 1]);
    }
  }

  /** The groups hold the input's valid hashes, each as often as the input does. */
  ghost predicate Groups(groups: seq<Group>, hashes: seq<string>) {
    && Ordered(groups)
    && (forall k :: 0 <= k < |groups| ==>
          groups[k].paths != [] && multiset(groups[k].paths) == multiset(PathsOn(hashes, groups[k].host)))
    && (forall host :: PathsOn(hashes, host) != [] ==> exists k :: 0 <= k < |groups| && groups[k].host == host)
  }

  lemma GroupsHold(groups: seq<Group>, hashes: seq<string>)
    requires Groups(groups, hashes)
    ensures multiset(AllHashes(groups)) == multiset(ValidHashes(hashes))
  {
    var a, b := multiset(AllHashes(groups)), multiset(ValidHashes(hashes));
    hide Groups, AllHashes, ValidHashes;
    forall h ensures a[h] == b[h] {
      if |h| == HASH_LENGTH {
        EquallyOften(groups, hashes, h);
      } else {
        NeitherHolds(groups, hashes, h);
      }
    }
  }

  lemma NeitherHolds(groups: seq<Group>, hashes: seq<string>, h: string)
    requires Groups(groups, hashes) && |h| != HASH_LENGTH
    ensures multiset(AllHashes(groups))[h] == 0 == multiset(ValidHashes(hashes))[h]
  {
    assert forall k :: 0 <= k < |groups| ==> WellFormed(groups[k]);
    hide *;
    AllHashesLength(groups);
    ValidHashesLength(hashes);
    assert h !in AllHashes(groups) && h !in ValidHashes(hashes);
  }

  lemma EquallyOften(groups: seq<Group>, hashes: seq<string>, h: string)
    requires Groups(groups, hashes) && |h| == HASH_LENGTH
    ensures multiset(AllHashes(groups))[h] == multiset(ValidHashes(hashes))[h]
  {
    hide AllHashes, ValidHashes, PathsOn, Ordered;
    AllHashesCount(groups, h);
    PathsOnCount(hashes, h);
    if forall k :: 0 <= k < |groups| ==> groups[k].host != HostOf(h) {
      assert PathsOn(hashes, HostOf(h)) == [];
    }
  }

  /** The keys of a map, in the order its iteration happens to visit them. */
  method ListKeys(keys: set<string>) returns (list: seq<string>)
    ensures NoRepeats(list) && forall s :: s in list <==> s in keys
  {
    list := [];
    var rest := keys;
    while rest != {}
      invariant rest <= keys && NoRepeats(list)
      invariant forall s :: s in list <==> s in keys && s !in rest
      decreases rest
    {
      var s :| s in rest;
      rest := rest - {s};
      list := list + [s];
    }
  }

  lemma {:induction false} RepeatCounted(ss: seq<string>, i: nat, j: nat)
    requires i < j < |ss| && ss[i] == ss[j]
    ensures multiset(ss)[ss[i]] >= 2
  {
    assert ss == ss[..j] + [ss[j]] + ss[j + 1..];
    assert ss[i] == ss[..j][i];
  }

  lemma {:induction false} NoRepeatsCount(ss: seq<string>, x: string)
    requires NoRepeats(ss)
    ensures multiset(ss)[x] <= 1
    decreases |ss|
  {
    if ss == [] {
    } else {
      var init, last := ss[..|ss| - 1], ss[|ss| - 1];
      assert ss == init + [last];
      NoRepeatsCount(init, x);
      assert last !in init;
    }
  }

  /** Sorting texts that do not repeat makes them strictly ascending. */
  lemma SortedStrictly(sorted: seq<string>, ss: seq<string>)
    requires IsSortOf(sorted, ss) && NoRepeats(ss)
    ensures forall i, j :: 0 <= i < j < |sorted| ==> Compare(sorted[i], sorted[j]) < 0
    ensures forall s :: s in sorted <==> s in ss
  {
    forall i, j | 0 <= i < j < |sorted| ensures Compare(sorted[i], sorted[j]) < 0 {
      if sorted[i] == sorted[j] {
        RepeatCounted(sorted, i, j);
        NoRepeatsCount(ss, sorted[i]);
      }
      CompareEqual(sorted[i], sorted[j]);
    }
    SortKeeps(sorted, ss);
  }

  lemma SortKeeps(sorted: seq<string>, ss: seq<string>)
    requires multiset(sorted) == multiset(ss)
    ensures forall s :: s in sorted <==> s in ss
  {
    assert forall s :: s in sorted <==> s in multiset(sorted);
    assert forall s :: s in ss <==> s in multiset(ss);
  }

  lemma {:induction false} BodyAppend(groups: seq<Group>, g: Group)
    ensures Body(groups + [g]) == Body(groups) + (if groups == [] then "" else ",") + GroupText(g)
    decreases |groups|
  {
    if |groups| == 0 {
      assert groups + [g] == [g];
    } else {
      assert (groups + [g])[1..] == groups[1..] + [g];
      BodyAppend(groups[1..], g);
    }
  }

  // ---------------------------------------------------------------------
  // The printer

  /** The text prints groups that hold the valid hashes: strictly ascending hosts, each with
      its paths ascending. */
  ghost predicate IsAbstract(text: string, hashes: seq<string>) {
    exists groups :: Groups(groups, hashes) && text == "{" + Body(groups) + "}"
  }

  method EncodeSearchIndexAbstract(urlHashes: seq<string>) returns (text: string)
    ensures IsAbstract(text, urlHashes)
  {
    hide Body, PathsOn, Compare, Groups;
    BodyNone();
    if |urlHashes| == 0 {
      PathsOnNone();
      GroupsComplete([], [], urlHashes);
      return "{}";
    }
    var domains := GroupByHost(urlHashes);
    if |domains| == 0 {
      assert domains == map[];
      GroupsComplete([], [], urlHashes);
      return "{}";
    }
    var keys := ListKeys(domains.Keys);
    ghost var unsorted := keys;
    keys := SortStrings(keys);
    SortedStrictly(keys, unsorted);
    forall s | s in keys ensures HashPart(s) { PathsOnParts(urlHashes, s); }
    ghost var groups: seq<Group>;
    text, groups := WriteGroups(keys, domains, urlHashes);
    GroupsComplete(keys, groups, urlHashes);
  }

  lemma GroupsComplete(keys: seq<string>, groups: seq<Group>, hashes: seq<string>)
    requires |groups| == |keys| && forall k :: 0 <= k < |keys| ==>
      groups[k].host == keys[k] && WellFormed(groups[k])
      && multiset(groups[k].paths) == multiset(PathsOn(hashes, keys[k]))
    requires forall i, j :: 0 <= i < j < |keys| ==> Compare(keys[i], keys[j]) < 0
    requires forall host :: PathsOn(hashes, host) != [] <==> host in keys
    ensures Groups(groups, hashes)
  {
    hide PathsOn, Compare, WellFormed;
    forall host | PathsOn(hashes, host) != [] ensures exists k :: 0 <= k < |groups| && groups[k].host == host {
      var k :| 0 <= k < |keys| && keys[k] == host;
      assert groups[k].host == host;
    }
  }

  method GroupByHost(urlHashes: seq<string>) returns (domains: map<string, seq<string>>)
    ensures forall host :: host in domains ==> domains[host] == PathsOn(urlHashes, host) != []
    ensures forall host :: host !in domains ==> PathsOn(urlHashes, host) == []
  {
    domains := map[];
    for i := 0 to |urlHashes|
      invariant forall host :: host in domains ==> domains[host] == PathsOn(urlHashes[..i], host) != []
      invariant forall host :: host !in domains ==> PathsOn(urlHashes[..i], host) == []
    {
      var raw := urlHashes[i];
      assert urlHashes[..i + 1][..i] == urlHashes[..i];
      if !ValidHash(raw) {
        continue;
      }
      var known := if raw[6..] in domains then domains[raw[6..]] else [];
      domains := domains[raw[6..] := known + [raw[..6]]];
    }
    assert urlHashes[..|urlHashes|] == urlHashes;
  }

  method WriteGroups(keys: seq<string>, domains: map<string, seq<string>>, ghost urlHashes: seq<string>)
    returns (text: string, ghost groups: seq<Group>)
    requires forall s :: s in keys ==> s in domains && domains[s] == PathsOn(urlHashes, s) && HashPart(s)
    ensures text == "{" + Body(groups) + "}"
    ensures |groups| == |keys| && forall k :: 0 <= k < |keys| ==>
      groups[k].host == keys[k] && WellFormed(groups[k])
      && multiset(groups[k].paths) == multiset(PathsOn(urlHashes, keys[k]))
  {
    hide Body, PathsOn, Compare, Concat, HashPart, WellFormed, GroupText;
    groups := [];
    text := "{";
    BodyNone();
    for i := 0 to |keys|
      invariant |groups| == i && text == "{" + Body(groups)
      invariant forall k :: 0 <= k < i ==>
        groups[k].host == keys[k] && WellFormed(groups[k])
        && multiset(groups[k].paths) == multiset(PathsOn(urlHashes, keys[k]))
    {
      var host := keys[i];
      if i > 0 {
        text := text + ",";
      }
      PathsOnParts(urlHashes, host);
      ghost var paths;
      text, paths := WriteGroup(text, host, domains[host]);
      BodyAppend(groups, Group(host, paths));
      groups := groups + [Group(host, paths)];
    }
    text := text + "}";
  }

  method WriteGroup(before: string, host: string, unsorted: seq<string>) returns (text: string, ghost sorted: seq<string>)
    requires HashPart(host) && forall k :: 0 <= k < |unsorted| ==> HashPart(unsorted[k])
    ensures WellFormed(Group(host, sorted)) && multiset(sorted) == multiset(unsorted)
    ensures text == before + GroupText(Group(host, sorted))
  {
    var paths := SortStrings(unsorted);
    SortedParts(paths, unsorted);
    text := before + host + ":";
    text := WritePaths(text, paths);
    sorted := paths;
  }

  lemma SortedParts(sorted: seq<string>, parts: seq<string>)
    requires multiset(sorted) == multiset(parts) && forall k :: 0 <= k < |parts| ==> HashPart(parts[k])
    ensures forall k :: 0 <= k < |sorted| ==> HashPart(sorted[k])
  {
    SortKeeps(sorted, parts);
    forall k | 0 <= k < |sorted| ensures HashPart(sorted[k]) {
      assert sorted[k] in parts;
    }
  }

  lemma BodyNone()
    ensures Body([]) == ""
  {
  }

  lemma PathsOnNone()
    ensures forall host :: PathsOn([], host) == []
  {
  }

  method WritePaths(before: string, paths: seq<string>) returns (text: string)
    ensures text == before + Concat(paths)
  {
    text := before;
    for j := 0 to |paths|
      invariant text == before + Concat(paths[..j])
    {
      assert paths[..j + 1][..j] == paths[..j];
      text := text + paths[j];
    }
    assert paths[..|paths|] == paths;
  }

  // ---------------------------------------------------------------------
  // The parser

  /** The text before and after the first separator, and whether there is one. */
  function Cut(s: string, sep: char): (r: (string, string, bool))
    ensures if r.2 then s == r.0 + [sep] + r.1 else s == r.0 && r.1 == ""
    ensures sep !in r.0
  {
    if s == "" then ("", "", false)
    else if s[0] == sep then ("", s[1..], true)
    else
      var (before, after, found) := Cut(s[1..], sep);
      ([s[0]] + before, after, found)
  }

  /** The hashes a text of paths spells on one host. */
  function PathHashes(host: string, paths: string): seq<string>
    requires |paths| % HOST_HASH_LENGTH == 0
    decreases |paths|
  {
    if paths == "" then []
    else [paths[..HOST_HASH_LENGTH] + host] + PathHashes(host, paths[HOST_HASH_LENGTH..])
  }

  function GroupHashes(group: string): Option<seq<string>> {
    var (host, paths, found) := Cut(group, ':');
    if !found || |paths| % HOST_HASH_LENGTH != 0 || !HashPart(host) || !AllSymbols(paths) then None
    else Some(PathHashes(host, paths))
  }

  function BodyHashes(body: string): Option<seq<string>>
    decreases |body|
  {
    if body == "" then Some([])
    else
      var (group, rest, more) := Cut(body, ',');
      match GroupHashes(group)
      case None => None
      case Some(first) =>
        if more && rest == "" then None
        else
          match BodyHashes(rest)
          case None => None
          case Some(others) => Some(first + others)
  }

  /** What decoding without a limit yields. */
  function Decoded(raw: string): Option<seq<string>> {
    if raw == "" || raw == "{}" then Some([])
    else if |raw| < 2 || raw[0] != '{' || raw[|raw| - 1] != '}' then None
    else BodyHashes(raw[1..|raw| - 1])
  }

  function Take(ss: seq<string>, limit: int): seq<string> {
    if limit <= 0 then [] else if limit < |ss| then ss[..limit] else ss
  }

  method ValidAbstractHashPart(part: string) returns (valid: bool)
    ensures valid == AllSymbols(part)
  {
    for position := 0 to |part|
      invariant AllSymbols(part[..position])
    {
      if Value(part[position]) < 0 {
        return false;
      }
    }
    assert part[..|part|] == part;
    return true;
  }

  lemma TakeNone(limit: int)
    ensures Take([], limit) == []
    ensures forall ss :: Take(ss, limit) == Take(ss, if limit < 0 then 0 else limit)
  {
  }

  lemma TakeMore(ss: seq<string>, s: string, limit: nat)
    ensures Take(ss + [s], limit) == if |Take(ss, limit)| < limit then Take(ss, limit) + [s] else Take(ss, limit)
  {
  }

  /** Decodes one group behind the hashes kept so far; it reads on past the limit. */
  method DecodeGroup(group: string, hashes: seq<string>, limit: nat, ghost all: seq<string>)
    returns (r: Option<seq<string>>)
    requires hashes == Take(all, limit)
    ensures r.None? <==> GroupHashes(group).None?
    ensures r.Some? ==> r.value == Take(all + GroupHashes(group).value, limit)
  {
    var (host, paths, found) := Cut(group, ':');
    if !found || |host| != HOST_HASH_LENGTH || |paths| % HOST_HASH_LENGTH != 0 {
      return None;
    }
    var valid := ValidAbstractHashPart(host);
    if !valid {
      return None;
    }
    hide Take;
    r := DecodePaths(host, paths, hashes, limit, all);
  }

  method DecodePaths(host: string, paths: string, hashes: seq<string>, limit: nat, ghost all: seq<string>)
    returns (r: Option<seq<string>>)
    requires |paths| % HOST_HASH_LENGTH == 0 && hashes == Take(all, limit)
    ensures r.None? <==> !AllSymbols(paths)
    ensures r.Some? ==> r.value == Take(all + PathHashes(host, paths), limit)
  {
    hide Cut, PathHashes, Take, Compare;
    var kept := hashes;
    ghost var read := all;
    var start := 0;
    while start < |paths|
      invariant start <= |paths| && start % HOST_HASH_LENGTH == 0
      invariant AllSymbols(paths[..start])
      invariant read + PathHashes(host, paths[start..]) == all + PathHashes(host, paths)
      invariant kept == Take(read, limit)
    {
      var path := paths[start..start + HOST_HASH_LENGTH];
      PathHashesAt(host, paths, start);
      var valid := ValidAbstractHashPart(path);
      if !valid {
        assert !AllSymbols(paths) by {
          var k :| 0 <= k < |path| && Value(path[k]) < 0;
          assert paths[start + k] == path[k];
        }
        return None;
      }
      assert paths[..start + HOST_HASH_LENGTH] == paths[..start] + path;
      TakeMore(read, path + host, limit);
      if |kept| < limit {
        kept := kept + [path + host];
      }
      read := read + [path + host];
      start := start + HOST_HASH_LENGTH;
    }
    assert paths[..|paths|] == paths;
    PathHashesAt(host, paths, start);
    assert read + [] == read;
    return Some(kept);
  }

  lemma PathHashesAt(host: string, paths: string, start: nat)
    requires |paths| % HOST_HASH_LENGTH == 0 && start % HOST_HASH_LENGTH == 0 && start <= |paths|
    ensures start == |paths| ==> PathHashes(host, paths[start..]) == []
    ensures start < |paths| ==>
      && start + HOST_HASH_LENGTH <= |paths|
      && PathHashes(host, paths[start..])
         == [paths[start..start + HOST_HASH_LENGTH] + host] + PathHashes(host, paths[start + HOST_HASH_LENGTH..])
  {
    if start < |paths| {
      assert paths[start..][HOST_HASH_LENGTH..] == paths[start + HOST_HASH_LENGTH..];
      assert paths[start..][..HOST_HASH_LENGTH] == paths[start..start + HOST_HASH_LENGTH];
    }
  }

  /** Any limit accepts the same texts and keeps the first hashes. */
  method DecodeSearchIndexAbstractWithLimit(raw: string, maximumHashes: int) returns (r: Option<seq<string>>)
    ensures r.None? <==> Decoded(raw).None?
    ensures r.Some? ==> r.value == Take(Decoded(raw).value, maximumHashes)
  {
    hide Take, Cut, GroupHashes;
    TakeNone(maximumHashes);
    if raw == "" || raw == "{}" {
      return Some([]);
    }
    if raw[0] != '{' || raw[|raw| - 1] != '}' {
      return None;
    }
    var body := raw[1..|raw| - 1];
    var limit := if maximumHashes < 0 then 0 else maximumHashes;
    var hashes: seq<string> := [];
    ghost var all: seq<string> := [];
    assert BodyHashes(body).Some? ==> [] + BodyHashes(body).value == BodyHashes(body).value;
    while body != ""
      invariant hashes == Take(all, limit)
      invariant Decoded(raw) == match BodyHashes(body) case None => None case Some(others) => Some(all + others)
      decreases |body|
    {
      var (group, remainder, more) := Cut(body, ',');
      var decoded := DecodeGroup(group, hashes, limit, all);
      if decoded.None? {
        return None;
      }
      hashes := decoded.value;
      if more && remainder == "" {
        return None;
      }
      ghost var first := GroupHashes(group).value;
      if BodyHashes(remainder).Some? {
        assert all + (first + BodyHashes(remainder).value) == (all + first) + BodyHashes(remainder).value;
      }
      all := all + first;
      body := remainder;
    }
    assert all + [] == all;
    return Some(hashes);
  }

  method DecodeSearchIndexAbstract(raw: string) returns (r: Option<seq<string>>)
    ensures r == Decoded(raw)
  {
    DecodedFits(raw);
    r := DecodeSearchIndexAbstractWithLimit(raw, |raw| / HOST_HASH_LENGTH);
  }

  // ---------------------------------------------------------------------
  // The default limit never truncates

  lemma {:induction false} PathHashesLength(host: string, paths: string)
    requires |paths| % HOST_HASH_LENGTH == 0
    ensures HOST_HASH_LENGTH * |PathHashes(host, paths)| == |paths|
    decreases |paths|
  {
    if paths == "" {
    } else {
      PathHashesLength(host, paths[HOST_HASH_LENGTH..]);
    }
  }

  lemma {:induction false} BodyHashesFit(body: string)
    ensures BodyHashes(body).Some? ==> HOST_HASH_LENGTH * |BodyHashes(body).value| <= |body|
    decreases |body|
  {
    if body == "" {
    } else {
      var (group, rest, _) := Cut(body, ',');
      var (host, paths, _) := Cut(group, ':');
      BodyHashesFit(rest);
      if |paths| % HOST_HASH_LENGTH == 0 {
        PathHashesLength(host, paths);
      }
    }
  }

  lemma DecodedFits(raw: string)
    ensures Decoded(raw).Some? ==> |Decoded(raw).value| <= |raw| / HOST_HASH_LENGTH
  {
    if |raw| >= 2 {
      BodyHashesFit(raw[1..|raw| - 1]);
    }
  }

  // ---------------------------------------------------------------------
  // The parser undoes the printer

  lemma {:induction false} CutAt(before: string, sep: char, after: string)
    requires sep !in before
    ensures Cut(before + [sep] + after, sep) == (before, after, true)
    ensures Cut(before, sep) == (before, "", false)
    decreases |before|
  {
    if before == "" {
    } else {
      CutAt(before[1..], sep, after);
      assert (before + [sep] + after)[1..] == before[1..] + [sep] + after;
      assert before == [before[0]] + before[1..];
    }
  }

  lemma {:induction false} ConcatParts(host: string, paths: seq<string>)
    requires forall k :: 0 <= k < |paths| ==> HashPart(paths[k])
    ensures AllSymbols(Concat(paths)) && |Concat(paths)| == HOST_HASH_LENGTH * |paths|
    ensures PathHashes(host, Concat(paths)) == Hashes(Group(host, paths))
    decreases |paths|
  {
    if paths == [] {
    } else {
      var first, rest := paths[0], paths[1..];
      ConcatParts(host, rest);
      ConcatFront(first, rest);
      assert paths == [first] + rest;
      var text := Concat(paths);
      assert text[..HOST_HASH_LENGTH] == first && text[HOST_HASH_LENGTH..] == Concat(rest);
      assert Hashes(Group(host, paths)) == [first + host] + Hashes(Group(host, rest));
    }
  }

  lemma {:induction false} ConcatFront(first: string, rest: seq<string>)
    ensures Concat([first] + rest) == first + Concat(rest)
    decreases |rest|
  {
    var all := [first] + rest;
    if rest == [] {
      assert all[..0] == [];
    } else {
      assert all[..|all| - 1] == [first] + rest[..|rest| - 1];
      ConcatFront(first, rest[..|rest| - 1]);
    }
  }

  lemma GroupTextParses(g: Group)
    requires Formed(g)
    ensures GroupHashes(GroupText(g)) == Some(Hashes(g)) && ',' !in GroupText(g) && GroupText(g) != ""
  {
    ConcatParts(g.host, g.paths);
    assert forall k :: 0 <= k < |g.host| ==> Value(g.host[k]) >= 0;
    assert Value(':') < 0 && Value(',') < 0;
    CutAt(g.host, ':', Concat(g.paths));
    assert GroupText(g) == g.host + [':'] + Concat(g.paths);
  }

  lemma {:induction false} BodyParses(groups: seq<Group>)
    requires forall k :: 0 <= k < |groups| ==> Formed(groups[k])
    ensures BodyHashes(Body(groups)) == Some(AllHashes(groups))
    ensures groups != [] ==> Body(groups) != ""
  {
    if groups == [] {
    } else {
      var first, rest := GroupText(groups[0]), groups[1..];
      GroupTextParses(groups[0]);
      BodyParses(rest);
      if rest == [] {
        CutAt(first, ',', "");
        assert Hashes(groups[0]) + [] == Hashes(groups[0]);
      } else {
        CutAt(first, ',', Body(rest));
        assert Body(groups) == first + [','] + Body(rest);
      }
    }
  }

  /** Host part first, path part second, both in base64 order. */
  ghost predicate HashOrder(a: string, b: string) {
    && |a| == |b| == HASH_LENGTH
    && (Compare(HostOf(a), HostOf(b)) < 0 || (HostOf(a) == HostOf(b) && Compare(PathOf(a), PathOf(b)) <= 0))
  }

  lemma HashesParts(g: Group)
    requires WellFormed(g)
    ensures |Hashes(g)| == |g.paths|
    ensures forall i :: 0 <= i < |Hashes(g)| ==>
      |Hashes(g)[i]| == HASH_LENGTH && HostOf(Hashes(g)[i]) == g.host && PathOf(Hashes(g)[i]) == g.paths[i]
  {
  }

  ghost predicate InOrder(hashes: seq<string>) {
    forall i, j :: 0 <= i < j < |hashes| ==> HashOrder(hashes[i], hashes[j])
  }

  ghost predicate OnSomeHost(h: string, groups: seq<Group>) {
    |h| == HASH_LENGTH && exists k :: 0 <= k < |groups| && HostOf(h) == groups[k].host
  }

  ghost predicate OnHosts(hashes: seq<string>, groups: seq<Group>) {
    forall j :: 0 <= j < |hashes| ==> OnSomeHost(hashes[j], groups)
  }

  lemma GroupInOrder(groups: seq<Group>)
    requires Ordered(groups) && groups != []
    ensures InOrder(Hashes(groups[0])) && OnHosts(Hashes(groups[0]), groups)
  {
    HashesParts(groups[0]);
    hide Hashes, HostOf, PathOf, Compare, AllSymbols;
    forall j | 0 <= j < |Hashes(groups[0])| ensures OnSomeHost(Hashes(groups[0])[j], groups) {
      assert HostOf(Hashes(groups[0])[j]) == groups[0].host;
    }
  }

  /** Hashes of further groups come behind. */
  lemma GroupComesFirst(groups: seq<Group>, others: seq<string>)
    requires Ordered(groups) && groups != [] && OnHosts(others, groups[1..])
    ensures OnHosts(others, groups)
    ensures forall i, j :: 0 <= i < |Hashes(groups[0])| && 0 <= j < |others| ==> HashOrder(Hashes(groups[0])[i], others[j])
  {
    HashesParts(groups[0]);
    hide Hashes, HostOf, PathOf, Compare, AllSymbols;
    forall j | 0 <= j < |others|
      ensures |others[j]| == HASH_LENGTH && Compare(groups[0].host, HostOf(others[j])) < 0
      ensures OnSomeHost(others[j], groups)
    {
      assert OnSomeHost(others[j], groups[1..]);
      var k :| 0 <= k < |groups[1..]| && HostOf(others[j]) == groups[1..][k].host;
      assert groups[1..][k] == groups[k + 1];
    }
  }

  lemma JoinedInOrder(first: seq<string>, others: seq<string>, groups: seq<Group>)
    requires InOrder(first) && InOrder(others) && OnHosts(first, groups) && OnHosts(others, groups)
    requires forall i, j :: 0 <= i < |first| && 0 <= j < |others| ==> HashOrder(first[i], others[j])
    ensures InOrder(first + others) && OnHosts(first + others, groups)
  {
    hide HashOrder, OnSomeHost;
    var all := first + others;
    assert forall i :: 0 <= i < |all| ==> all[i] == if i < |first| then first[i] else others[i - |first|];
    forall i, j | 0 <= i < j < |all| ensures HashOrder(all[i], all[j]) {
      if i >= |first| {
        assert HashOrder(others[i - |first|], others[j - |first|]);
      } else if j < |first| {
        assert HashOrder(first[i], first[j]);
      } else {
        assert HashOrder(first[i], others[j - |first|]);
      }
    }
    forall j | 0 <= j < |all| ensures OnSomeHost(all[j], groups) {
      if j < |first| {
        assert OnSomeHost(first[j], groups);
      } else {
        assert OnSomeHost(others[j - |first|], groups);
      }
    }
  }

  lemma {:induction false} AllHashesOrdered(groups: seq<Group>)
    requires Ordered(groups)
    ensures InOrder(AllHashes(groups)) && OnHosts(AllHashes(groups), groups)
  {
    if groups == [] {
    } else {
      hide InOrder, OnHosts, Compare, Hashes, AllSymbols;
      AllHashesOrdered(groups[1..]);
      GroupInOrder(groups);
      GroupComesFirst(groups, AllHashes(groups[1..]));
      JoinedInOrder(Hashes(groups[0]), AllHashes(groups[1..]), groups);
    }
  }

  /** Decoding what was encoded yields the valid hashes, each as often, in order. */
  lemma DecodeEncode(hashes: seq<string>, text: string)
    requires IsAbstract(text, hashes)
    ensures Decoded(text).Some?
    ensures multiset(Decoded(text).value) == multiset(ValidHashes(hashes))
    ensures forall i, j :: 0 <= i < j < |Decoded(text).value| ==> HashOrder(Decoded(text).value[i], Decoded(text).value[j])
  {
    var groups :| Groups(groups, hashes) && text == "{" + Body(groups) + "}";
    hide AllHashes, ValidHashes, PathsOn, WellFormed, Ascending;
    AbstractDecodes(groups, text);
    GroupsHold(groups, hashes);
    AllHashesOrdered(groups);
  }

  lemma AbstractDecodes(groups: seq<Group>, text: string)
    requires Ordered(groups) && text == "{" + Body(groups) + "}"
    ensures Decoded(text) == Some(AllHashes(groups))
  {
    assert forall k :: 0 <= k < |groups| ==> Formed(groups[k]);
    hide Body, AllHashes, WellFormed;
    BodyParses(groups);
    assert text[1..|text| - 1] == Body(groups);
    if groups == [] { NoHashes(); }
  }

  lemma NoHashes()
    ensures Body([]) == "" && AllHashes([]) == []
  {
  }

  // ---------------------------------------------------------------------
  // One text for one input

  ghost predicate Strict(ss: seq<string>) {
    forall i, j :: 0 <= i < j < |ss| ==> Compare(ss[i], ss[j]) < 0
  }

  lemma StrictRest(ss: seq<string>)
    requires Strict(ss) && ss != []
    ensures forall s :: s in ss[1..] <==> s in ss && s != ss[0]
  {
    CompareEqual(ss[0], ss[0]);
    assert ss == [ss[0]] + ss[1..];
    forall k | 1 <= k < |ss| ensures ss[k] != ss[0] {
      assert Compare(ss[0], ss[k]) < 0;
    }
  }

  lemma {:induction false} StrictSame(a: seq<string>, b: seq<string>)
    requires Strict(a) && Strict(b) && forall s :: s in a <==> s in b
    ensures a == b
  {
    assert b != [] ==> b[0] in a;
    if a == [] {
    } else {
      assert a[0] in b && b[0] in a;
      CompareReverses(a[0], b[0]);
      assert a[0] == b[0];
      StrictRest(a);
      StrictRest(b);
      assert a == [a[0]] + a[1..] && b == [b[0]] + b[1..];
      StrictSame(a[1..], b[1..]);
    }
  }

  lemma {:induction false} AscendingSame(a: seq<string>, b: seq<string>)
    requires Ascending(a) && Ascending(b) && multiset(a) == multiset(b)
    ensures a == b
  {
    if a == [] {
      assert |multiset(b)| == 0;
    } else {
      hide Compare, Ascending;
      LeastSame(a, b);
      RestAscends(a);
      RestAscends(b);
      RestHolds(a);
      RestHolds(b);
      AscendingSame(a[1..], b[1..]);
    }
  }

  lemma RestHolds(a: seq<string>)
    requires a != []
    ensures a == [a[0]] + a[1..] && multiset(a[1..]) == multiset(a) - multiset{a[0]}
  {
  }

  lemma RestAscends(a: seq<string>)
    requires Ascending(a) && a != []
    ensures Ascending(a[1..])
  {
  }

  lemma LeastSame(a: seq<string>, b: seq<string>)
    requires Ascending(a) && Ascending(b) && multiset(a) == multiset(b) && a != []
    ensures b != [] && a[0] == b[0]
  {
    hide Compare;
    assert a[0] in multiset(b) && b != [];
    assert b[0] in multiset(a);
    CompareReverses(a[0], b[0]);
    CompareEqual(a[0], b[0]);
  }

  function Hosts(groups: seq<Group>): seq<string> {
    seq(|groups|, k requires 0 <= k < |groups| => groups[k].host)
  }

  lemma GroupHosts(groups: seq<Group>, hashes: seq<string>)
    requires Groups(groups, hashes)
    ensures Strict(Hosts(groups)) && forall host :: host in Hosts(groups) <==> PathsOn(hashes, host) != []
  {
    hide PathsOn;
    forall host ensures host in Hosts(groups) <==> PathsOn(hashes, host) != [] {
      if host in Hosts(groups) {
        var k :| 0 <= k < |groups| && groups[k].host == host;
        assert |multiset(groups[k].paths)| == |multiset(PathsOn(hashes, host))|;
      }
      if PathsOn(hashes, host) != [] {
        var k :| 0 <= k < |groups| && groups[k].host == host;
        assert Hosts(groups)[k] == host;
      }
    }
  }

  /** The text depends on the hashes alone, not on the order the program's map is visited in. */
  lemma AbstractUnique(a: string, b: string, hashes: seq<string>)
    requires IsAbstract(a, hashes) && IsAbstract(b, hashes)
    ensures a == b
  {
    var g: seq<Group> :| Groups(g, hashes) && a == "{" + Body(g) + "}";
    var h: seq<Group> :| Groups(h, hashes) && b == "{" + Body(h) + "}";
    GroupHosts(g, hashes);
    GroupHosts(h, hashes);
    StrictSame(Hosts(g), Hosts(h));
    hide PathsOn, Body;
    forall k | 0 <= k < |g| ensures g[k] == h[k] {
      assert Hosts(g)[k] == Hosts(h)[k];
      AscendingSame(g[k].paths, h[k].paths);
    }
    assert g == h;
  }
}
