/**
 The texts that count as search index abstracts, as a grammar: groups between braces with
 commas between them, a host part, a colon and path parts in each.
 */
module AbstractGrammar {
  import opened Wrappers
  import opened Base64
  import opened IndexAbstract

  ghost predicate AllFormed(groups: seq<Group>) {
    forall k :: 0 <= k < |groups| ==> Formed(groups[k])
  }

  // ---------------------------------------------------------------------
  // From text to groups

  lemma {:induction false} PathsBack(host: string, paths: string) returns (parts: seq<string>)
    requires |paths| % HOST_HASH_LENGTH == 0 && AllSymbols(paths) && HashPart(host)
    ensures Formed(Group(host, parts)) && Concat(parts) == paths
    decreases |paths|
  {
    if paths == "" {
      parts := [];
    } else {
      var first, rest := paths[..HOST_HASH_LENGTH], paths[HOST_HASH_LENGTH..];
      var others := PathsBack(host, rest);
      parts := [first] + others;
      ConcatFront(first, others);
      assert paths == first + rest;
    }
  }

  lemma GroupBack(group: string) returns (g: Group)
    requires GroupHashes(group).Some?
    ensures Formed(g) && GroupText(g) == group && GroupHashes(group).value == Hashes(g)
  {
    hide AllSymbols, Concat;
    var (host, paths, found) := Cut(group, ':');
    var parts := PathsBack(host, paths);
    g := Group(host, parts);
    GroupTextParses(g);
    assert host + ":" + paths == host + [':'] + paths;
  }

  lemma {:induction false} BodyBack(body: string) returns (groups: seq<Group>)
    requires BodyHashes(body).Some?
    ensures AllFormed(groups) && Body(groups) == body
    decreases |body|
  {
    if body == "" {
      groups := [];
    } else {
      var (group, rest, more) := Cut(body, ',');
      var g := GroupBack(group);
      if more {
        var others := BodyBack(rest);
        groups := [g] + others;
        hide GroupText, GroupHashes, Cut;
        assert groups[1..] == others && others != [];
        assert group + "," + rest == group + [','] + rest;
      } else {
        groups := [g];
      }
    }
  }

  /** A text is decoded exactly if it is empty or groups printed between braces, and then to
      the hashes of the groups. */
  lemma DecodedExactly(raw: string, hashes: seq<string>)
    ensures Decoded(raw) == Some(hashes) <==>
      || (raw == "" && hashes == [])
      || exists groups :: AllFormed(groups) && raw == "{" + Body(groups) + "}" && hashes == AllHashes(groups)
  {
    hide BodyHashes, Body, AllHashes, AllFormed;
    if Decoded(raw) == Some(hashes) && raw != "" {
      var groups := EnvelopeBack(raw);
      EnvelopeParses(groups);
    }
    if groups :| AllFormed(groups) && raw == "{" + Body(groups) + "}" && hashes == AllHashes(groups) {
      EnvelopeParses(groups);
    }
  }

  lemma EnvelopeBack(raw: string) returns (groups: seq<Group>)
    requires Decoded(raw).Some? && raw != ""
    ensures AllFormed(groups) && raw == "{" + Body(groups) + "}"
  {
    if raw == "{}" {
      groups := [];
      NoHashes();
    } else {
      groups := BodyBack(raw[1..|raw| - 1]);
      hide Body, AllFormed, BodyHashes;
      Braced(raw);
    }
  }

  lemma Braced(raw: string)
    requires |raw| >= 2 && raw[0] == '{' && raw[|raw| - 1] == '}'
    ensures raw == "{" + raw[1..|raw| - 1] + "}"
  {
  }

  lemma EnvelopeParses(groups: seq<Group>)
    requires AllFormed(groups)
    ensures Decoded("{" + Body(groups) + "}") == Some(AllHashes(groups))
  {
    BodyParses(groups);
    NoHashes();
    var text := "{" + Body(groups) + "}";
    hide Body, AllHashes, BodyHashes;
    assert text[1..|text| - 1] == Body(groups);
    if Body(groups) == "" { assert text == "{}"; }
  }

  // ---------------------------------------------------------------------
  // What is decoded

  lemma PartsJoin(a: string, b: string)
    requires HashPart(a) && HashPart(b)
    ensures ValidHash(a + b)
  {
  }

  lemma {:induction false} FormedHashesValid(groups: seq<Group>)
    requires AllFormed(groups)
    ensures forall h :: h in AllHashes(groups) ==> ValidHash(h)
  {
    hide ValidHash, HashPart;
    if groups == [] {
    } else {
      FormedHashesValid(groups[1..]);
      forall k | 0 <= k < |groups[0].paths| ensures ValidHash(groups[0].paths[k] + groups[0].host) {
        assert Formed(groups[0]);
        PartsJoin(groups[0].paths[k], groups[0].host);
      }
    }
  }

  /** Whatever is decoded is a valid hash. */
  lemma DecodedValid(raw: string)
    requires Decoded(raw).Some?
    ensures forall h :: h in Decoded(raw).value ==> ValidHash(h)
  {
    hide Decoded, AllHashes, Body, AllFormed, ValidHash;
    DecodedExactly(raw, Decoded(raw).value);
    if raw != "" || Decoded(raw).value != [] {
      var groups :| AllFormed(groups) && raw == "{" + Body(groups) + "}" && Decoded(raw).value == AllHashes(groups);
      FormedHashesValid(groups);
    }
  }

  // ---------------------------------------------------------------------
  // A text written out

  /** Two groups as they stand in an abstract. */
  lemma SampleText()
    ensures var groups := [Group("AAAAAA", ["bbbbbb", "cccccc"]), Group("BBBBBB", ["aaaaaa"])];
      && "{" + Body(groups) + "}" == "{AAAAAA:bbbbbbcccccc,BBBBBB:aaaaaa}"
      && AllHashes(groups) == ["bbbbbbAAAAAA", "ccccccAAAAAA", "aaaaaaBBBBBB"]
  {
    var a, b := Group("AAAAAA", ["bbbbbb", "cccccc"]), Group("BBBBBB", ["aaaaaa"]);
    TwoPaths("AAAAAA", "bbbbbb", "cccccc");
    OnePath("BBBBBB", "aaaaaa");
    TwoGroups(a, b);
    hide GroupText, Hashes, Body, AllHashes;
    assert GroupText(a) == "AAAAAA:bbbbbbcccccc" && GroupText(b) == "BBBBBB:aaaaaa";
    assert "bbbbbb" + "AAAAAA" == "bbbbbbAAAAAA";
    assert "cccccc" + "AAAAAA" == "ccccccAAAAAA";
    assert "aaaaaa" + "BBBBBB" == "aaaaaaBBBBBB";
  }

  lemma OnePath(host: string, path: string)
    ensures GroupText(Group(host, [path])) == host + ":" + path && Hashes(Group(host, [path])) == [path + host]
  {
    ConcatFront(path, []);
    assert [path] + [] == [path];
  }

  lemma TwoPaths(host: string, a: string, b: string)
    ensures GroupText(Group(host, [a, b])) == host + ":" + (a + b)
    ensures Hashes(Group(host, [a, b])) == [a + host, b + host]
  {
    ConcatFront(b, []);
    ConcatFront(a, [b]);
    assert [b] + [] == [b] && [a] + [b] == [a, b];
    hide Concat;
  }

  lemma TwoGroups(a: Group, b: Group)
    ensures Body([a, b]) == GroupText(a) + "," + GroupText(b) && AllHashes([a, b]) == Hashes(a) + Hashes(b)
  {
    assert [a, b][1..] == [b] && [b][1..] == [];
    assert AllHashes([b]) == Hashes(b) + [];
  }

  // ---------------------------------------------------------------------
  // The order of strings

  /** Symbols rank by their values, before every other character. */
  lemma RankTells(c: char, d: char)
    ensures Rank(c) < Rank(d) <==>
      if Value(c) >= 0 && Value(d) >= 0 then Value(c) < Value(d)
      else Value(c) >= 0 || (Value(d) < 0 && c < d)
  {
    AlphabetSpelled(0);
  }

  /** The first difference, at a place of both or at the end of the first. */
  ghost predicate DiffersAt(a: string, b: string, k: nat) {
    && k <= |a| && k < |b| && a[..k] == b[..k]
    && (k < |a| ==> Rank(a[k]) < Rank(b[k]))
  }

  lemma DiffersLater(a: string, b: string)
    ensures forall k: nat :: k > 0 && DiffersAt(a, b, k) ==> a[0] == b[0]
  {
    forall k: nat | k > 0 && DiffersAt(a, b, k) ensures a[0] == b[0] {
      assert a[..k][0] == b[..k][0];
    }
  }

  /** One string comes before another exactly if it is a proper prefix of it, or smaller at the
      first place where they differ. */
  lemma {:induction false} CompareTells(a: string, b: string)
    ensures Compare(a, b) < 0 <==> exists k: nat :: DiffersAt(a, b, k)
    decreases |a|
  {
    if a == "" || b == "" {
      if b != "" { assert DiffersAt(a, b, 0); }
    } else {
      hide Rank;
      if Rank(a[0]) < Rank(b[0]) {
        assert DiffersAt(a, b, 0);
      } else if a[0] == b[0] {
        CompareTells(a[1..], b[1..]);
        if k: nat :| DiffersAt(a[1..], b[1..], k) {
          assert a[..k + 1] == [a[0]] + a[1..][..k] && b[..k + 1] == [b[0]] + b[1..][..k];
          assert DiffersAt(a, b, k + 1);
        }
        if k: nat :| DiffersAt(a, b, k) {
          assert k > 0;
          assert a[1..][..k - 1] == a[..k][1..] && b[1..][..k - 1] == b[..k][1..];
          assert DiffersAt(a[1..], b[1..], k - 1);
        }
      } else {
        if Rank(a[0]) == Rank(b[0]) { RankInjective(a[0], b[0]); }
        DiffersLater(a, b);
      }
    }
  }
}
