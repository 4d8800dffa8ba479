/** The browser's offline OID search: the longest indexed prefix of a dotted query. */
module OidSearch {
  import opened Text
  import opened NotificationReplay

  /** The string test the search applies to one index key. */
  predicate Matches(query: string, key: string) {
    query == key || key + "." <= query
  }

  /** r is a longest matching non-empty key, if there is one. */
  ghost predicate LongestMatch(keys: seq<string>, query: string, r: Option<string>) {
    match r
    case None => forall k | k in keys && Matches(query, k) :: k == []
    case Some(key) =>
      && key in keys && key != [] && Matches(query, key)
      && forall k | k in keys && Matches(query, k) :: |k| <= |key|
  }

  /** Scans the keys for the longest matching one; an empty key counts as no result. */
  method TryOidIndexSearch(keys: seq<string>, query: string) returns (r: Option<string>)
    ensures LongestMatch(keys, query, r)
  {
    var best: Option<string>, bestLength: int := None, -1;
    for i := 0 to |keys|
      invariant bestLength == if best.Some? then |best.value| else -1
      invariant best.Some? ==> best.value in keys && Matches(query, best.value)
      invariant forall k | 0 <= k < i && Matches(query, keys[k]) :: |keys[k]| <= bestLength
    {
      if Matches(query, keys[i]) && |keys[i]| > bestLength {
        best, bestLength := Some(keys[i]), |keys[i]|;
      }
    }
    if best == None || best == Some([]) {
      return None;
    }
    r := best;
  }

  lemma {:induction false} DecimalsPrefix(p: Oid, q: Oid)
    requires Decimals(p) <= Decimals(q)
    ensures p <= q
  {
    forall k | 0 <= k < |p| ensures p[k] == q[k] {
      assert Decimals(p)[k] == Decimals(q)[k];
      EqualNumbers(p[k], q[k]);
    }
  }

  lemma TextOfConcat(p: Oid, r: Oid)
    requires p != [] && r != []
    ensures OidToStr(p + r) == OidToStr(p) + "." + OidToStr(r)
  {
    assert Decimals(p + r) == Decimals(p) + Decimals(r);
    JoinConcat(Decimals(p), Decimals(r), '.');
  }

  /** A longer text that starts with the key and a dot splits into the arcs of p first. */
  lemma DottedPrefix(p: Oid, q: Oid, rest: string)
    requires p != [] && q != [] && OidToStr(q) == OidToStr(p) + ['.'] + rest
    ensures p <= q
  {
    OidTextParts(p);
    OidTextParts(q);
    SplitConcat(OidToStr(p), rest, '.');
    assert Decimals(q) == Decimals(p) + Split(rest, '.');
    DecimalsPrefix(p, q);
  }

  lemma SameText(p: Oid, q: Oid)
    requires p != [] && q != [] && OidToStr(q) == OidToStr(p)
    ensures p <= q
  {
    OidTextParts(p);
    OidTextParts(q);
    DecimalsPrefix(p, q);
  }

  lemma PrefixTextMatches(p: Oid, q: Oid)
    requires p != [] && p < q
    ensures OidToStr(p) + "." <= OidToStr(q)
  {
    var r := q[|p|..];
    assert q == p + r;
    TextOfConcat(p, r);
  }

  /** The string test is the arc-prefix test. */
  lemma MatchesExactlyPrefixes(p: Oid, q: Oid)
    requires p != [] && q != []
    ensures Matches(OidToStr(q), OidToStr(p)) <==> p <= q
  {
    var key, query := OidToStr(p), OidToStr(q);
    if p < q {
      PrefixTextMatches(p, q);
    } else if key + "." <= query {
      assert query == key + ['.'] + query[|key| + 1..];
      DottedPrefix(p, q, query[|key| + 1..]);
    } else if query == key {
      SameText(p, q);
    } else {
      assert p <= q ==> p == q;
    }
  }

  /** The keys are the dotted texts of the indexed OIDs. */
  ghost predicate IndexKeys(index: seq<Oid>, keys: seq<string>) {
    |keys| == |index| && forall k | 0 <= k < |index| :: index[k] != [] && keys[k] == OidToStr(index[k])
  }

  /** p is the longest indexed prefix of q. */
  ghost predicate LongestPrefix(index: seq<Oid>, q: Oid, p: Oid) {
    p in index && p <= q && forall o | o in index && o <= q :: o <= p
  }

  lemma LongerPrefixHasLongerText(o: Oid, p: Oid)
    requires o != [] && o <= p
    ensures |OidToStr(o)| <= |OidToStr(p)|
    ensures o != p ==> |OidToStr(o)| < |OidToStr(p)|
  {
    if o != p {
      assert p == o + p[|o|..];
      TextOfConcat(o, p[|o|..]);
    }
  }

  /** A key matches exactly when it stands for an indexed prefix. */
  lemma MatchingKeys(index: seq<Oid>, keys: seq<string>, q: Oid, j: nat)
    requires IndexKeys(index, keys) && q != [] && j < |index|
    ensures keys[j] in keys && keys[j] != []
    ensures Matches(OidToStr(q), keys[j]) <==> index[j] <= q
  {
    MatchesExactlyPrefixes(index[j], q);
    OidTextShape(index[j]);
  }

  /** The greatest string length picks the longest arc-prefix. */
  lemma LongestTextIsLongestPrefix(o: Oid, p: Oid, q: Oid)
    requires o != [] && p != [] && o <= q && p <= q
    requires |OidToStr(o)| <= |OidToStr(p)|
    ensures o <= p
  {
    if |p| < |o| {
      assert p <= o;
      LongerPrefixHasLongerText(p, o);
    }
  }

  lemma LongestMatchIsLongestPrefix(index: seq<Oid>, keys: seq<string>, q: Oid, i: nat)
    requires IndexKeys(index, keys) && q != [] && i < |index|
    requires LongestMatch(keys, OidToStr(q), Some(keys[i]))
    ensures LongestPrefix(index, q, index[i])
  {
    MatchingKeys(index, keys, q, i);
    forall o | o in index && o <= q ensures o <= index[i] {
      var j :| 0 <= j < |index| && index[j] == o;
      MatchingKeys(index, keys, q, j);
      LongestTextIsLongestPrefix(o, index[i], q);
    }
  }

  lemma NoMatchMeansNoPrefix(index: seq<Oid>, keys: seq<string>, q: Oid)
    requires IndexKeys(index, keys) && q != []
    requires LongestMatch(keys, OidToStr(q), None)
    ensures forall o | o in index :: !(o <= q)
  {
    forall o | o in index ensures !(o <= q) {
      var j :| 0 <= j < |index| && index[j] == o;
      MatchingKeys(index, keys, q, j);
    }
  }

  /** On well-formed dotted OIDs a longest string match is the text of the unique longest arc-prefix
      in the index, and there is none exactly when the index holds no prefix. */
  lemma SearchFindsLongestPrefix(index: seq<Oid>, keys: seq<string>, q: Oid, r: Option<string>)
    requires IndexKeys(index, keys) && q != []
    requires LongestMatch(keys, OidToStr(q), r)
    ensures r.Some? <==> exists o | o in index :: o <= q
    ensures r.Some? ==> exists p | LongestPrefix(index, q, p) :: r.value == OidToStr(p)
    ensures forall p, o | LongestPrefix(index, q, p) && LongestPrefix(index, q, o) :: p == o
  {
    match r
    case None => NoMatchMeansNoPrefix(index, keys, q);
    case Some(key) =>
      var i :| 0 <= i < |keys| && keys[i] == key;
      LongestMatchIsLongestPrefix(index, keys, q, i);
      assert index[i] in index;
  }
}
