/** The language-model categorizer of ai_categorizer.py: the service's reply is trimmed and
    accepted only when it names one of the permitted categories. The request itself is not
    modelled: its reply is an input, `None` standing for a call that raised. */
module AiCategorizer {
  import opened Wrappers
  import opened Tables

  /** The label used whenever the reply cannot be trusted. */
  const Uncategorized: string := "Uncategorized"

  /** The characters Python's `str.isspace()` accepts, which `str.strip()` removes. */
  predicate IsSpace(c: char)
  {
    || '\t' <= c <= '\r'
    || '\U{1C}' <= c <= ' '
    || c == '\U{85}' || c == '\U{A0}' || c == '\U{1680}'
    || '\U{2000}' <= c <= '\U{200A}'
    || c == '\U{2028}' || c == '\U{2029}' || c == '\U{202F}' || c == '\U{205F}' || c == '\U{3000}'
  }

  ghost predicate AllSpace(s: string)
  {
    forall i :: 0 <= i < |s| ==> IsSpace(s[i])
  }

  /** Leading whitespace removed. */
  function TrimStart(s: string): (r: string)
    ensures |r| <= |s| && r == s[|s| - |r|..]
    ensures AllSpace(s[..|s| - |r|])
    ensures r == [] || !IsSpace(r[0])
  {
    if s != [] && IsSpace(s[0]) then
      var t := s[1..];
      var r := TrimStart(t);
      assert s[..|s| - |r|] == [s[0]] + t[..|t| - |r|];
      r
    else s
  }

  /** Trailing whitespace removed. */
  function TrimEnd(s: string): (r: string)
    ensures |r| <= |s| && r == s[..|r|]
    ensures AllSpace(s[|r|..])
    ensures r == [] || !IsSpace(r[|r| - 1])
  {
    if s != [] && IsSpace(s[|s| - 1]) then
      var t := s[..|s| - 1];
      var r := TrimEnd(t);
      assert s[|r|..] == t[|r|..] + [s[|s| - 1]];
      r
    else s
  }

  /** Python's `str.strip()`: the middle of `s` between its leading and trailing whitespace. */
  function Strip(s: string): (r: string)
    ensures exists i, j :: 0 <= i <= j <= |s| && r == s[i..j] && AllSpace(s[..i]) && AllSpace(s[j..])
    ensures r == [] || (!IsSpace(r[0]) && !IsSpace(r[|r| - 1]))
  {
    var t := TrimStart(s);
    var r := TrimEnd(t);
    SpaceAround(s, t, r);
    r
  }

  /** A suffix of `s` after whitespace, cut before further whitespace, is a slice of `s`
      with only whitespace around it. */
  lemma SpaceAround(s: string, t: string, r: string)
    requires |t| <= |s| && t == s[|s| - |t|..] && AllSpace(s[..|s| - |t|])
    requires |r| <= |t| && r == t[..|r|] && AllSpace(t[|r|..])
    ensures exists i, j :: 0 <= i <= j <= |s| && r == s[i..j] && AllSpace(s[..i]) && AllSpace(s[j..])
  {
    var i, j := |s| - |t|, |s| - |t| + |r|;
    assert r == s[i..j];
    assert s[j..] == t[|r|..];
  }

  lemma {:induction false} TrimStartPadded(p: string, s: string)
    requires AllSpace(p)
    ensures TrimStart(p + s) == TrimStart(s)
  {
    if p != [] {
      assert (p + s)[1..] == p[1..] + s;
      TrimStartPadded(p[1..], s);
    } else {
      assert p + s == s;
    }
  }

  lemma {:induction false} TrimEndPadded(s: string, q: string)
    requires AllSpace(q)
    ensures TrimEnd(s + q) == TrimEnd(s)
  {
    if q != [] {
      assert (s + q)[..|s + q| - 1] == s + q[..|q| - 1];
      TrimEndPadded(s, q[..|q| - 1]);
    } else {
      assert s + q == s;
    }
  }

  /** Trailing characters survive the start trim untouched, unless `s` is all whitespace. */
  lemma {:induction false} TrimStartAppend(s: string, q: string)
    ensures TrimStart(s) != [] ==> TrimStart(s + q) == TrimStart(s) + q
    ensures TrimStart(s) == [] ==> TrimStart(s + q) == TrimStart(q)
  {
    if s == [] {
      assert s + q == q;
    } else if IsSpace(s[0]) {
      assert (s + q)[1..] == s[1..] + q;
      TrimStartAppend(s[1..], q);
    }
  }

  /** Whitespace added around a string never changes what `strip` returns. */
  lemma StripPadded(p: string, s: string, q: string)
    requires AllSpace(p) && AllSpace(q)
    ensures Strip(p + s + q) == Strip(s)
  {
    assert p + s + q == p + (s + q);
    TrimStartPadded(p, s + q);
    TrimStartAppend(s, q);
    if TrimStart(s) != [] {
      TrimEndPadded(TrimStart(s), q);
    } else {
      assert q + [] == q;
      TrimStartPadded(q, []);
    }
  }

  /** A string that neither begins nor ends with whitespace is its own strip. */
  lemma StripUnpadded(s: string)
    requires s == [] || (!IsSpace(s[0]) && !IsSpace(s[|s| - 1]))
    ensures Strip(s) == s
  {
    if s != [] {
      assert TrimStart(s) == s;
      assert TrimEnd(s) == s;
    }
  }

  /** Stripping twice is stripping once. */
  lemma StripIdempotent(s: string)
    ensures Strip(Strip(s)) == Strip(s)
  {
    StripUnpadded(Strip(s));
  }

  /** `categorize_advertiser` after the service call: the stripped reply when it is one of
      `categories`, `"Uncategorized"` when it is not or when the call raised. */
  function Categorize(categories: seq<string>, reply: Option<string>): (r: string)
    ensures r in categories || r == Uncategorized
    ensures reply.None? ==> r == Uncategorized
    ensures reply.Some? && Strip(reply.value) in categories ==> r == Strip(reply.value)
    ensures reply.Some? && Strip(reply.value) !in categories ==> r == Uncategorized
  {
    match reply
    case None => Uncategorized
    case Some(text) =>
      var category := Strip(text);
      if category !in categories then Uncategorized else category
  }

  /** Leading or trailing whitespace in the reply never changes the category chosen. */
  lemma CategorizeIgnoresPadding(categories: seq<string>, p: string, text: string, q: string)
    requires AllSpace(p) && AllSpace(q)
    ensures Categorize(categories, Some(p + text + q)) == Categorize(categories, Some(text))
  {
    StripPadded(p, text, q);
  }

  /** A category that itself begins or ends with whitespace can never be returned: the
      stripped reply never equals it. */
  lemma PaddedCategoryNeverChosen(categories: seq<string>, c: string, reply: Option<string>)
    requires c != Uncategorized && Strip(c) != c
    ensures Categorize(categories, reply) != c
  {
    if reply.Some? && Strip(reply.value) in categories {
      StripIdempotent(reply.value);
    }
  }

  /** The fallback label, fed back as a reply, is kept as it is. */
  lemma CategorizeFallback(categories: seq<string>)
    ensures Categorize(categories, Some(Uncategorized)) == Uncategorized
  {
    StripUnpadded(Uncategorized);
  }

  /** Feeding the validated label back as a reply yields the same label. */
  lemma CategorizeIdempotent(categories: seq<string>, reply: Option<string>)
    ensures Categorize(categories, Some(Categorize(categories, reply))) == Categorize(categories, reply)
  {
    var r := Categorize(categories, reply);
    if r == Uncategorized {
      CategorizeFallback(categories);
    } else {
      StripIdempotent(reply.value);
    }
  }

  /** The dictionary `batch_categorize_advertisers` holds after its loop has seen
      `advertisers`, where `replies[i]` is the service's answer for `advertisers[i]`: a later
      occurrence of an advertiser overwrites an earlier one. */
  function Categorized(advertisers: seq<string>, categories: seq<string>, replies: seq<Option<string>>): (m: map<string, string>)
    requires |replies| == |advertisers|
    ensures forall i :: 0 <= i < |advertisers| ==> advertisers[i] in m
    ensures forall a :: a in m ==> a in advertisers
    ensures forall a :: a in m ==> m[a] in categories || m[a] == Uncategorized
  {
    if advertisers == [] then map[]
    else
      var n := |advertisers| - 1;
      Categorized(advertisers[..n], categories, replies[..n])[advertisers[n] := Categorize(categories, replies[n])]
  }

  /** Each advertiser's entry is the category chosen on its last occurrence. */
  lemma {:induction false} CategorizedLastWriteWins(advertisers: seq<string>, categories: seq<string>, replies: seq<Option<string>>, i: nat)
    requires |replies| == |advertisers| && i < |advertisers|
    requires forall j :: i < j < |advertisers| ==> advertisers[j] != advertisers[i]
    ensures Categorized(advertisers, categories, replies)[advertisers[i]] == Categorize(categories, replies[i])
  {
    var n := |advertisers| - 1;
    var init, rest := advertisers[..n], replies[..n];
    var m := Categorized(init, categories, rest);
    assert Categorized(advertisers, categories, replies) == m[advertisers[n] := Categorize(categories, replies[n])];
    if i < n {
      assert init[i] == advertisers[i] && rest[i] == replies[i];
      assert forall j :: i < j < n ==> init[j] == advertisers[j];
      CategorizedLastWriteWins(init, categories, rest, i);
      assert advertisers[n] != advertisers[i];
      assert m[advertisers[i]] == Categorize(categories, replies[i]);
    } else {
      assert i == n;
    }
  }

  /** The replies of a service that answers each advertiser the same way every time. */
  function Ask(service: string -> Option<string>, advertisers: seq<string>): (replies: seq<Option<string>>)
    ensures |replies| == |advertisers|
    ensures forall i :: 0 <= i < |advertisers| ==> replies[i] == service(advertisers[i])
  {
    if advertisers == [] then [] else [service(advertisers[0])] + Ask(service, advertisers[1..])
  }

  /** With a deterministic service every entry equals `categorize_advertiser` for that advertiser. */
  lemma CategorizedDeterministic(advertisers: seq<string>, categories: seq<string>, service: string -> Option<string>, a: string)
    requires a in advertisers
    ensures var m := Categorized(advertisers, categories, Ask(service, advertisers));
      a in m && m[a] == Categorize(categories, service(a))
  {
    var i :| 0 <= i < |advertisers| && advertisers[i] == a;
    while exists j :: i < j < |advertisers| && advertisers[j] == a
      invariant 0 <= i < |advertisers| && advertisers[i] == a
      decreases |advertisers| - i
    {
      var k :| i < k < |advertisers| && advertisers[k] == a;
      i := k;
    }
    CategorizedLastWriteWins(advertisers, categories, Ask(service, advertisers), i);
  }

  /** Duplicates collapse: one entry per distinct advertiser, so the dictionary is as large as
      the input exactly when the input has no repeats. */
  lemma CategorizedSize(advertisers: seq<string>, categories: seq<string>, replies: seq<Option<string>>)
    requires |replies| == |advertisers|
    ensures |Categorized(advertisers, categories, replies)| == |Unique(advertisers)|
    ensures |Categorized(advertisers, categories, replies)| == |advertisers| <==> Distinct(advertisers)
  {
    var m := Categorized(advertisers, categories, replies);
    var u := Unique(advertisers);
    assert m.Keys == set x | x in u;
    DistinctCardinality(u);
    UniqueKeepsDistinct(advertisers);
  }

  /** `batch_categorize_advertisers`: fills the dictionary entry by entry. */
  method BatchCategorize(advertisers: seq<string>, categories: seq<string>, replies: seq<Option<string>>)
    returns (categorized: map<string, string>)
    requires |replies| == |advertisers|
    ensures categorized == Categorized(advertisers, categories, replies)
  {
    categorized := map[];
    for i := 0 to |advertisers|
      invariant categorized == Categorized(advertisers[..i], categories, replies[..i])
    {
      var category := Categorize(categories, replies[i]);
      categorized := categorized[advertisers[i] := category];
      assert advertisers[..i + 1][..i] == advertisers[..i];
      assert replies[..i + 1][..i] == replies[..i];
    }
    assert advertisers[..|advertisers|] == advertisers;
    assert replies[..|replies|] == replies;
  }
}
