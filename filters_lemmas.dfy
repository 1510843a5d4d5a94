/**
  Properties of the filter parser of `pkg/handler/flows.go`: how many groups
  it returns, the shape and order of the filters it keeps, and the round trip
  between a filter string and its groups.
*/
module FilterProperties {
  import opened Wrappers
  import opened GoStrings
  import opened GoUrl
  import opened Handler

  /** A key or value as the parser produces it: free of all three separators. */
  predicate Clean(s: string)
  {
    GroupSeparator !in s && FilterSeparator !in s && PairSeparator !in s
  }

  /** There is one group per `|`-separated piece of the decoded string, so never zero groups. */
  lemma {:induction false} GroupCount(decoded: string)
    ensures |FilterGroups(decoded)| == Count(decoded, GroupSeparator) + 1
    ensures forall i :: 0 <= i < |FilterGroups(decoded)| ==>
              FilterGroups(decoded)[i] == AndFilters(Split(Split(decoded, GroupSeparator)[i], FilterSeparator))
  {
    SplitCount(decoded, GroupSeparator);
    var groups := Split(decoded, GroupSeparator);
    forall i | 0 <= i < |groups|
      ensures FilterGroups(decoded)[i] == AndFilters(Split(groups[i], FilterSeparator))
    {
      ParsedGroupsAt(groups, i);
    }
  }

  /** Parsing fails exactly when the input has a `%` not followed by two hexadecimal digits; otherwise there is at least one group. */
  lemma FiltersOfOutcome(raw: string)
    ensures FiltersOf(raw).Failure? <==> exists i: nat :: BadEscapeAt(raw, i)
    ensures FiltersOf(raw).Failure? ==> FiltersOf(raw) == Failure(Unescape(raw).error)
    ensures FiltersOf(raw).Success? ==> |FiltersOf(raw).value| == Count(Unescape(raw).value, GroupSeparator) + 1 >= 1
  {
    UnescapeFails(raw);
    if Unescape(raw).Success? {
      GroupCount(Unescape(raw).value);
    }
  }

  /** A candidate is kept exactly when it has one `=`, and then it is split there into key and value. */
  lemma KeptPairRule(candidate: string)
    ensures |KeptPair(candidate)| == (if Count(candidate, PairSeparator) == 1 then 1 else 0)
    ensures Count(candidate, PairSeparator) == 1 ==>
              var kv := KeptPair(candidate)[0];
              |kv| == 2 && kv[0] + [PairSeparator] + kv[1] == candidate &&
              PairSeparator !in kv[0] && PairSeparator !in kv[1]
  {
    SplitCount(candidate, PairSeparator);
    SplitPartChars(candidate, PairSeparator);
    JoinSplit(candidate, PairSeparator);
    var pair := Split(candidate, PairSeparator);
    if |pair| == 2 {
      assert KeptPair(candidate) == [pair];
      assert PieceOf(pair[0], candidate, PairSeparator) && PieceOf(pair[1], candidate, PairSeparator);
      assert pair[1..] == [pair[1]];
      assert Join(pair, PairSeparator) == pair[0] + [PairSeparator] + pair[1];
    }
  }

  /** Filtering the candidates commutes with concatenation: filters keep their left-to-right order. */
  lemma {:induction false} AndFiltersAppend(a: seq<string>, b: seq<string>)
    ensures AndFilters(a + b) == AndFilters(a) + AndFilters(b)
    decreases |b|
  {
    if b == [] {
      assert a + b == a;
    } else {
      var init := b[..|b| - 1];
      AndFiltersAppend(a, init);
      assert (a + b)[..|a + b| - 1] == a + init;
      assert (a + b)[|a + b| - 1] == b[|b| - 1];
    }
  }

  /** A filter is kept exactly when it is the `=`-split of a candidate with one `=`. */
  lemma {:induction false} AndFiltersMember(candidates: seq<string>, kv: KeyValues)
    ensures kv in AndFilters(candidates) <==>
              exists k :: 0 <= k < |candidates| && Count(candidates[k], PairSeparator) == 1 && kv == Split(candidates[k], PairSeparator)
  {
    if candidates != [] {
      var n := |candidates| - 1;
      var last := candidates[n];
      assert kv in AndFilters(candidates) <==> kv in AndFilters(candidates[..n]) || kv in KeptPair(last);
      KeptPairRule(last);
      SplitCount(last, PairSeparator);
      AndFiltersMember(candidates[..n], kv);
      KeptFromLast(candidates, kv);
    }
  }

  /** A candidate with one `=` that splits into `kv` is among the earlier candidates or is the last one. */
  lemma KeptFromLast(candidates: seq<string>, kv: KeyValues)
    requires candidates != []
    ensures var n := |candidates| - 1;
      (exists k :: 0 <= k < |candidates| && Count(candidates[k], PairSeparator) == 1 && kv == Split(candidates[k], PairSeparator))
      <==> (exists k :: 0 <= k < n && Count(candidates[..n][k], PairSeparator) == 1 && kv == Split(candidates[..n][k], PairSeparator))
           || (Count(candidates[n], PairSeparator) == 1 && kv == Split(candidates[n], PairSeparator))
  {
    var n := |candidates| - 1;
    var init := candidates[..n];
    if exists k :: 0 <= k < |candidates| && Count(candidates[k], PairSeparator) == 1 && kv == Split(candidates[k], PairSeparator) {
      var k :| 0 <= k < |candidates| && Count(candidates[k], PairSeparator) == 1 && kv == Split(candidates[k], PairSeparator);
      if k < n {
        assert init[k] == candidates[k];
      }
    }
    if exists k :: 0 <= k < n && Count(init[k], PairSeparator) == 1 && kv == Split(init[k], PairSeparator) {
      var k :| 0 <= k < n && Count(init[k], PairSeparator) == 1 && kv == Split(init[k], PairSeparator);
      assert candidates[k] == init[k];
    }
  }

  /** When every candidate has exactly one `=`, nothing is dropped: filter `k` comes from candidate `k`. */
  lemma {:induction false} AndFiltersAllKept(candidates: seq<string>)
    requires forall k :: 0 <= k < |candidates| ==> Count(candidates[k], PairSeparator) == 1
    ensures |AndFilters(candidates)| == |candidates|
    ensures forall k :: 0 <= k < |candidates| ==> AndFilters(candidates)[k] == Split(candidates[k], PairSeparator)
  {
    if candidates != [] {
      var n := |candidates| - 1;
      var init := candidates[..n];
      AndFiltersAllKept(init);
      SplitCount(candidates[n], PairSeparator);
    }
  }

  /** Every kept filter is a `[key, value]` pair, and neither part holds `|`, `&` or `=`. */
  lemma PairShape(decoded: string, i: nat, kv: KeyValues)
    requires i < |FilterGroups(decoded)|
    requires kv in FilterGroups(decoded)[i]
    ensures |kv| == 2 && Clean(kv[0]) && Clean(kv[1])
  {
    GroupCount(decoded);
    var groups := Split(decoded, GroupSeparator);
    var candidates := Split(groups[i], FilterSeparator);
    AndFiltersMember(candidates, kv);
    var k :| 0 <= k < |candidates| && Count(candidates[k], PairSeparator) == 1 && kv == Split(candidates[k], PairSeparator);
    SplitCount(candidates[k], PairSeparator);
    SplitPartChars(decoded, GroupSeparator);
    SplitPartChars(groups[i], FilterSeparator);
    SplitPartChars(candidates[k], PairSeparator);
    forall j | 0 <= j < 2 ensures Clean(kv[j]) {
      forall x | x in kv[j] ensures x != GroupSeparator && x != FilterSeparator && x != PairSeparator {
        assert PieceOf(kv[j], candidates[k], PairSeparator);
        assert PieceOf(candidates[k], groups[i], FilterSeparator);
        assert PieceOf(groups[i], decoded, GroupSeparator);
      }
    }
  }

  /** The filter string of some groups: pairs joined by `=`, filters by `&`, groups by `|`. */
  function RenderGroup(g: Group): string
  {
    Join(seq(|g|, k requires 0 <= k < |g| => Join(g[k], PairSeparator)), FilterSeparator)
  }

  function RenderGroups(groups: seq<Group>): string
  {
    Join(seq(|groups|, i requires 0 <= i < |groups| => RenderGroup(groups[i])), GroupSeparator)
  }

  /** Every `&`-separated candidate of the decoded string has exactly one `=`. */
  predicate SinglyAssigned(decoded: string)
  {
    var groups := Split(decoded, GroupSeparator);
    forall i, k :: 0 <= i < |groups| && 0 <= k < |Split(groups[i], FilterSeparator)| ==>
      Count(Split(groups[i], FilterSeparator)[k], PairSeparator) == 1
  }

  /** Joining the groups back with `=`, `&` and `|` reproduces a string in which every candidate has one `=`. */
  lemma RenderParsed(decoded: string)
    requires SinglyAssigned(decoded)
    ensures RenderGroups(FilterGroups(decoded)) == decoded
  {
    var groups := Split(decoded, GroupSeparator);
    var parsed := FilterGroups(decoded);
    GroupCount(decoded);
    var rendered := seq(|parsed|, i requires 0 <= i < |parsed| => RenderGroup(parsed[i]));
    forall i | 0 <= i < |groups| ensures rendered[i] == groups[i] {
      var candidates := Split(groups[i], FilterSeparator);
      AndFiltersAllKept(candidates);
      var g := parsed[i];
      assert g == AndFilters(candidates);
      var pieces := seq(|g|, k requires 0 <= k < |g| => Join(g[k], PairSeparator));
      forall k | 0 <= k < |g| ensures pieces[k] == candidates[k] {
        JoinSplit(candidates[k], PairSeparator);
      }
      assert pieces == candidates;
      JoinSplit(groups[i], FilterSeparator);
    }
    assert rendered == groups;
    JoinSplit(decoded, GroupSeparator);
  }

  /** Groups the parser can produce: at least one group, and every filter a pair of clean strings. */
  predicate WellFormed(groups: seq<Group>)
  {
    |groups| >= 1 &&
    forall i, k :: 0 <= i < |groups| && 0 <= k < |groups[i]| ==>
      |groups[i][k]| == 2 && Clean(groups[i][k][0]) && Clean(groups[i][k][1])
  }

  /** Parsing the rendering of well-formed groups gives them back. */
  lemma RenderThenParse(groups: seq<Group>)
    requires WellFormed(groups)
    ensures FilterGroups(RenderGroups(groups)) == groups
  {
    var rendered := seq(|groups|, i requires 0 <= i < |groups| => RenderGroup(groups[i]));
    forall i | 0 <= i < |groups|
      ensures GroupSeparator !in rendered[i]
      ensures AndFilters(Split(rendered[i], FilterSeparator)) == groups[i]
    {
      GroupRoundTrip(groups[i]);
    }
    SplitJoin(rendered, GroupSeparator);
    var text := RenderGroups(groups);
    assert Split(text, GroupSeparator) == rendered;
    GroupCount(text);
  }

  /** One group: its rendering has no `|`, and parsing it gives the group back. */
  lemma GroupRoundTrip(g: Group)
    requires forall k :: 0 <= k < |g| ==> |g[k]| == 2 && Clean(g[k][0]) && Clean(g[k][1])
    ensures GroupSeparator !in RenderGroup(g)
    ensures AndFilters(Split(RenderGroup(g), FilterSeparator)) == g
  {
    var pieces := seq(|g|, k requires 0 <= k < |g| => Join(g[k], PairSeparator));
    forall k | 0 <= k < |g|
      ensures GroupSeparator !in pieces[k] && FilterSeparator !in pieces[k]
      ensures Count(pieces[k], PairSeparator) == 1 && Split(pieces[k], PairSeparator) == g[k]
    {
      PairRoundTrip(g[k]);
    }
    JoinAvoids(pieces, FilterSeparator, GroupSeparator);
    if g == [] {
      assert RenderGroup(g) == "";
      assert Split("", FilterSeparator) == [""];
      assert Split("", PairSeparator) == [""];
    } else {
      SplitJoin(pieces, FilterSeparator);
      AndFiltersAllKept(pieces);
    }
  }

  /** One pair: `key=value` has one `=`, no other separator, and splits back into the pair. */
  lemma PairRoundTrip(kv: KeyValues)
    requires |kv| == 2 && Clean(kv[0]) && Clean(kv[1])
    ensures var s := Join(kv, PairSeparator);
      GroupSeparator !in s && FilterSeparator !in s && Count(s, PairSeparator) == 1 && Split(s, PairSeparator) == kv
  {
    var s := Join(kv, PairSeparator);
    assert kv[1..] == [kv[1]];
    assert Join(kv[1..], PairSeparator) == kv[1];
    assert s == kv[0] + [PairSeparator] + kv[1];
    JoinAvoids(kv, PairSeparator, GroupSeparator);
    JoinAvoids(kv, PairSeparator, FilterSeparator);
    SplitJoin(kv, PairSeparator);
    SplitCount(s, PairSeparator);
  }

  /** A candidate without `=`, or with two or more, is dropped, and the filters around it are kept in order. */
  lemma DroppedSilently(before: seq<string>, candidate: string, after: seq<string>)
    requires Count(candidate, PairSeparator) != 1
    ensures AndFilters(before + [candidate] + after) == AndFilters(before) + AndFilters(after)
  {
    KeptPairRule(candidate);
    var upTo := before + [candidate];
    assert upTo[..|upTo| - 1] == before;
    assert AndFilters(upTo) == AndFilters(before) + KeptPair(candidate);
    AndFiltersAppend(upTo, after);
  }

  /**
    A lone `key=value` gives one group holding the pair, whatever else the key
    and value contain (commas, spaces) and even when either is empty.
  */
  lemma SinglePair(key: string, value: string)
    requires Clean(key) && Clean(value)
    ensures FilterGroups(key + [PairSeparator] + value) == [[[key, value]]]
  {
    var groups: seq<Group> := [[[key, value]]];
    RenderThenParse(groups);
    var kv := [key, value];
    assert kv[1..] == [value];
    assert Join(kv, PairSeparator) == key + [PairSeparator] + value;
    var pieces := seq(1, k requires 0 <= k < 1 => Join(groups[0][k], PairSeparator));
    assert pieces == [key + [PairSeparator] + value];
    assert RenderGroups(groups) == Join([RenderGroup(groups[0])], GroupSeparator);
  }

  /** An absent or empty `filters` parameter parses to one empty group, not to zero groups. */
  lemma EmptyFilters()
    ensures FiltersOf("") == Success([[]])
  {
    assert Split("", PairSeparator) == [""];
    assert KeptPair("") == [];
    assert AndFilters([""]) == [];
    assert Split("", FilterSeparator) == [""];
    assert Split("", GroupSeparator) == [""];
    assert ParsedGroups([""]) == [AndFilters([""])];
  }
}
