/** Cheer ("bits") tokens: the prefix -> tier table built from the channel's
    cheer actions, and the resolution of one chat word to a cheer image,
    colour and amount. */
module Bits {
  import opened Wrappers
  import opened Text
  import opened Colors
  import opened Drawables

  datatype CheerTier = CheerTier(minBits: int, color: Color, canCheer: bool)

  datatype TwitchCheer = TwitchCheer(prefix: Str, tiers: seq<CheerTier>)

  /** The exceptions the table construction and the lookup can raise. */
  datatype BitsError =
    | DuplicateTier(minBits: int)   // Dictionary.Add of a MinBits already present
    | DuplicatePrefix(prefix: Str)  // Dictionary.Add of a lower-cased prefix already present
    | AmountOverflow                // int.Parse of a digit run above Int32.MaxValue
    | MissingTier(minBits: int)     // the dictionary indexer on an absent key

  /** A prefix's tiers keyed by MinBits, in insertion order. */
  type TierTable = seq<CheerTier>

  type CheerTable = map<Str, TierTable>

  const Int32Max: int := 0x7FFF_FFFF

  // ---------------------------------------------------------------------------
  // Table construction
  // ---------------------------------------------------------------------------

  /** The tiers a viewer can cheer with, in their original order. */
  function Kept(tiers: seq<CheerTier>): (k: seq<CheerTier>)
    ensures |k| <= |tiers|
    ensures forall i :: 0 <= i < |k| ==> k[i].canCheer && k[i] in tiers
  {
    if tiers == [] then []
    else
      var last := tiers[|tiers| - 1];
      Kept(tiers[..|tiers| - 1]) + (if last.canCheer then [last] else [])
  }

  predicate HasKey(t: TierTable, key: int)
  {
    exists i | 0 <= i < |t| :: t[i].minBits == key
  }

  predicate DistinctKeys(t: TierTable)
  {
    forall i, j :: 0 <= i < j < |t| ==> t[i].minBits != t[j].minBits
  }

  /** The inner loop of the `Bits` constructor: a dictionary of the cheerable
      tiers keyed by MinBits, failing on a repeated key. */
  function BuildTiers(tiers: seq<CheerTier>): (r: Result<TierTable, BitsError>)
    ensures r.Ok? <==> DistinctKeys(Kept(tiers))
    ensures r.Ok? ==> r.value == Kept(tiers)
    ensures r.Err? ==> r.error.DuplicateTier?
  {
    if tiers == [] then Ok([])
    else
      var prefix := tiers[..|tiers| - 1];
      var t := tiers[|tiers| - 1];
      var more: seq<CheerTier> := if t.canCheer then [t] else [];
      assert Kept(tiers) == Kept(prefix) + more;
      DistinctKeysAppend(Kept(prefix), more);
      match BuildTiers(prefix)
      case Err(e) => Err(e)
      case Ok(acc) =>
        if !t.canCheer then Ok(acc)
        else if HasKey(acc, t.minBits) then Err(DuplicateTier(t.minBits))
        else Ok(acc + [t])
  }

  lemma DistinctKeysAppend(a: TierTable, b: TierTable)
    requires |b| <= 1
    ensures DistinctKeys(a + b) <==> DistinctKeys(a) && (|b| == 1 ==> !HasKey(a, b[0].minBits))
  {
    assert forall i :: 0 <= i < |a| ==> (a + b)[i] == a[i];
    if |b| == 1 && HasKey(a, b[0].minBits) {
      var i :| 0 <= i < |a| && a[i].minBits == b[0].minBits;
      assert (a + b)[i].minBits == (a + b)[|a|].minBits;
    }
  }

  /** A cheer action is registered when it keeps at least one tier. */
  predicate Registered(c: TwitchCheer)
  {
    |Kept(c.tiers)| > 0
  }

  /** Some registered action among `cs` has this lower-cased prefix. */
  predicate PrefixTaken(cs: seq<TwitchCheer>, key: Str)
  {
    exists i | 0 <= i < |cs| :: Registered(cs[i]) && ToLower(cs[i].prefix) == key
  }

  /** When the constructor succeeds: every tier list has distinct keys and no
      two registered actions share a lower-cased prefix. */
  predicate Buildable(cheers: seq<TwitchCheer>)
  {
    && (forall i :: 0 <= i < |cheers| ==> DistinctKeys(Kept(cheers[i].tiers)))
    && (forall i, j :: 0 <= i < j < |cheers| && Registered(cheers[i]) && Registered(cheers[j])
          ==> ToLower(cheers[i].prefix) != ToLower(cheers[j].prefix))
  }

  /** `table` maps exactly the registered lower-cased prefixes of `cheers`,
      each to the kept tiers of its action. */
  ghost predicate Describes(cheers: seq<TwitchCheer>, table: CheerTable)
  {
    && (forall key :: key in table <==> PrefixTaken(cheers, key))
    && (forall i :: 0 <= i < |cheers| && Registered(cheers[i]) ==>
          ToLower(cheers[i].prefix) in table && table[ToLower(cheers[i].prefix)] == Kept(cheers[i].tiers))
  }

  /** The `Bits(List<TwitchCheer>)` constructor. */
  function BuildTable(cheers: seq<TwitchCheer>): (r: Result<CheerTable, BitsError>)
    ensures r.Ok? <==> Buildable(cheers)
    ensures r.Ok? ==> Describes(cheers, r.value)
  {
    if cheers == [] then Ok(map[])
    else
      var prefix := cheers[..|cheers| - 1];
      var c := cheers[|cheers| - 1];
      BuildableSnoc(cheers);
      match BuildTable(prefix)
      case Err(e) => Err(e)
      case Ok(table) =>
        match BuildTiers(c.tiers)
        case Err(e) => Err(e)
        case Ok(tiers) =>
          if |tiers| > 0 then
            var key := ToLower(c.prefix);
            if key in table then Err(DuplicatePrefix(key))
            else
              DescribesSnoc(cheers, table, table[key := tiers]);
              Ok(table[key := tiers])
          else
            DescribesSnoc(cheers, table, table);
            Ok(table)
  }

  /** The table after one more action: its prefix added when it keeps a tier. */
  lemma DescribesSnoc(cheers: seq<TwitchCheer>, table: CheerTable, table': CheerTable)
    requires |cheers| > 0
    requires var c := cheers[|cheers| - 1];
             && Describes(cheers[..|cheers| - 1], table)
             && (Registered(c) ==> ToLower(c.prefix) !in table)
             && table' == if Registered(c) then table[ToLower(c.prefix) := Kept(c.tiers)] else table
    ensures Describes(cheers, table')
  {
    var prefix := cheers[..|cheers| - 1];
    var c := cheers[|cheers| - 1];
    PrefixTakenSnoc(cheers);
    forall i | 0 <= i < |cheers| && Registered(cheers[i])
      ensures ToLower(cheers[i].prefix) in table' && table'[ToLower(cheers[i].prefix)] == Kept(cheers[i].tiers)
    {
      if i < |prefix| {
        assert cheers[i] == prefix[i];
      }
    }
  }

  lemma BuildableSnoc(cheers: seq<TwitchCheer>)
    requires |cheers| > 0
    ensures var prefix := cheers[..|cheers| - 1];
            var c := cheers[|cheers| - 1];
            Buildable(cheers) <==>
              && Buildable(prefix)
              && DistinctKeys(Kept(c.tiers))
              && (Registered(c) ==> !PrefixTaken(prefix, ToLower(c.prefix)))
  {
    var prefix := cheers[..|cheers| - 1];
    var c := cheers[|cheers| - 1];
    assert forall i :: 0 <= i < |prefix| ==> prefix[i] == cheers[i];
    if Buildable(prefix) && DistinctKeys(Kept(c.tiers)) && (Registered(c) ==> !PrefixTaken(prefix, ToLower(c.prefix))) {
      forall i, j | 0 <= i < j < |cheers| && Registered(cheers[i]) && Registered(cheers[j])
        ensures ToLower(cheers[i].prefix) != ToLower(cheers[j].prefix)
      {
        if j == |cheers| - 1 {
          assert Registered(prefix[i]);
        }
      }
    }
    if Buildable(cheers) && Registered(c) {
      forall i | 0 <= i < |prefix| && Registered(prefix[i])
        ensures ToLower(prefix[i].prefix) != ToLower(c.prefix)
      {
        assert cheers[i] == prefix[i];
      }
    }
  }

  lemma PrefixTakenSnoc(cheers: seq<TwitchCheer>)
    requires |cheers| > 0
    ensures forall key :: PrefixTaken(cheers, key) <==>
              PrefixTaken(cheers[..|cheers| - 1], key)
              || (Registered(cheers[|cheers| - 1]) && ToLower(cheers[|cheers| - 1].prefix) == key)
  {
    var prefix := cheers[..|cheers| - 1];
    forall key
      ensures PrefixTaken(cheers, key) <==>
              PrefixTaken(prefix, key)
              || (Registered(cheers[|cheers| - 1]) && ToLower(cheers[|cheers| - 1].prefix) == key)
    {
      if PrefixTaken(prefix, key) {
        var i :| 0 <= i < |prefix| && Registered(prefix[i]) && ToLower(prefix[i].prefix) == key;
        assert cheers[i] == prefix[i];
      }
      if PrefixTaken(cheers, key) {
        var i :| 0 <= i < |cheers| && Registered(cheers[i]) && ToLower(cheers[i].prefix) == key;
        if i < |prefix| {
          assert cheers[i] == prefix[i];
        }
      }
    }
  }

  // ---------------------------------------------------------------------------
  // The pattern ([A-Za-z]+)(\d+)
  // ---------------------------------------------------------------------------

  /** End of the run of ASCII letters starting at p. */
  function LetterEnd(w: Str, p: nat): (q: nat)
    requires p <= |w|
    ensures p <= q <= |w|
    ensures forall k :: p <= k < q ==> IsAsciiLetter(w[k])
    ensures q == |w| || !IsAsciiLetter(w[q])
    decreases |w| - p
  {
    if p == |w| || !IsAsciiLetter(w[p]) then p else LetterEnd(w, p + 1)
  }

  /** End of the run of ASCII digits starting at q. */
  function DigitEnd(w: Str, q: nat): (e: nat)
    requires q <= |w|
    ensures q <= e <= |w|
    ensures forall k :: q <= k < e ==> IsAsciiDigit(w[k])
    ensures e == |w| || !IsAsciiDigit(w[e])
    decreases |w| - q
  {
    if q == |w| || !IsAsciiDigit(w[q]) then q else DigitEnd(w, q + 1)
  }

  /** The pattern can match at p with its letter group ending at q: one or more
      letters on [p, q) followed by a digit at q. */
  ghost predicate PatternAt(w: Str, p: nat, q: nat)
  {
    p < q < |w| && (forall k :: p <= k < q ==> IsAsciiLetter(w[k])) && IsAsciiDigit(w[q])
  }

  /** What the backtracking matcher tests at p: the greedy letter run is
      followed by a digit. */
  predicate MatchesAt(w: Str, p: nat)
  {
    p < |w| && IsAsciiLetter(w[p]) && LetterEnd(w, p) < |w| && IsAsciiDigit(w[LetterEnd(w, p)])
  }

  /** Greedy matching with backtracking finds a match at p exactly when one
      exists, and its letter group is the whole letter run: backing off
      leaves a letter, never a digit, after the group. */
  lemma MatchesAtIff(w: Str, p: nat, q: nat)
    requires p <= |w|
    ensures MatchesAt(w, p) ==> PatternAt(w, p, LetterEnd(w, p))
    ensures PatternAt(w, p, q) ==> MatchesAt(w, p) && q == LetterEnd(w, p)
  {
    if PatternAt(w, p, q) {
      LetterEndReaches(w, p, q);
      LetterEndStops(w, p, q);
    }
  }

  lemma {:induction false} LetterEndReaches(w: Str, p: nat, q: nat)
    requires p <= q <= |w| && forall k :: p <= k < q ==> IsAsciiLetter(w[k])
    ensures LetterEnd(w, p) >= q
    decreases q - p
  {
    if p < q {
      LetterEndReaches(w, p + 1, q);
    }
  }

  lemma {:induction false} LetterEndStops(w: Str, p: nat, q: nat)
    requires p <= q < |w| && !IsAsciiLetter(w[q])
    ensures LetterEnd(w, p) <= q
    decreases q - p
  {
    if p < q && IsAsciiLetter(w[p]) {
      LetterEndStops(w, p + 1, q);
    }
  }

  /** `Regex.Match`: the leftmost position at or after p where the pattern matches. */
  function FirstMatch(w: Str, p: nat): (r: Option<nat>)
    requires p <= |w|
    ensures r.Some? ==> p <= r.value < |w| && MatchesAt(w, r.value)
    ensures r.Some? ==> forall s :: p <= s < r.value ==> !MatchesAt(w, s)
    ensures r.None? ==> forall s :: p <= s < |w| ==> !MatchesAt(w, s)
    decreases |w| - p
  {
    if p == |w| then None
    else if MatchesAt(w, p) then Some(p)
    else FirstMatch(w, p + 1)
  }

  /** `int.Parse` of the digit group: its value, or an overflow past Int32. */
  function ParseInt32(digits: Str): (r: Result<nat, BitsError>)
    requires AllDigits(digits)
    ensures r.Ok? <==> DecimalValue(digits) <= Int32Max
    ensures r.Ok? ==> r.value == DecimalValue(digits)
  {
    var v := DecimalValue(digits);
    if v > Int32Max then Err(AmountOverflow) else Ok(v)
  }

  // ---------------------------------------------------------------------------
  // Tier selection and GetCheer
  // ---------------------------------------------------------------------------

  /** The loop over the tier keys: the largest key not above the amount,
      starting from 0 (so never negative). */
  function SelectTier(t: TierTable, amount: int): (r: int)
    ensures r >= 0
    ensures r == 0 || (HasKey(t, r) && r <= amount)
    ensures forall i :: 0 <= i < |t| && t[i].minBits <= amount ==> t[i].minBits <= r
  {
    if t == [] then 0
    else
      var m := SelectTier(t[..|t| - 1], amount);
      var k := t[|t| - 1].minBits;
      assert forall i :: 0 <= i < |t| - 1 ==> t[i] == t[..|t| - 1][i];
      if amount >= k && k > m then k else m
  }

  /** The dictionary indexer `tiers[key]`. */
  function TierAt(t: TierTable, key: int): (r: Result<CheerTier, BitsError>)
    ensures r.Ok? <==> HasKey(t, key)
    ensures r.Ok? ==> r.value in t && r.value.minBits == key
    ensures r.Err? ==> r.error == MissingTier(key)
  {
    if t == [] then Err(MissingTier(key))
    else if t[0].minBits == key then Ok(t[0])
    else
      var r := TierAt(t[1..], key);
      assert HasKey(t, key) ==> HasKey(t[1..], key) by {
        if HasKey(t, key) {
          var i :| 0 <= i < |t| && t[i].minBits == key;
          assert t[1..][i - 1] == t[i];
        }
      }
      r
  }

  /** The result of `GetCheer`: `emote` is None where the image reference is null. */
  datatype Cheer = Cheer(emote: Option<Image>, color: Color, amount: int)

  const DefaultCheer: Cheer := Cheer(None, Color(0, 0, 0, 0), 0)

  /** The image cache, by "prefix-tier"; a failed download is cached as None. */
  type ImageCache = map<Str, Option<Image>>

  /** The cache holds nothing but what the download oracle gives for each name. */
  predicate Consistent(cache: ImageCache, fetch: Str -> Option<Image>)
  {
    forall name :: name in cache ==> cache[name] == fetch(name)
  }

  /** The cache key of a prefix's tier: prefix + "-" + tier. */
  function CacheName(name: Str, tier: int): Str
  {
    name + [Dash] + IntToStr(tier)
  }

  /** The two groups of the first match: the lower-cased letters and the digits. */
  function CheerToken(word: Str): (r: Option<(Str, Str)>)
    ensures r.Some? <==> exists p :: 0 <= p < |word| && MatchesAt(word, p)
    ensures r.Some? ==> |r.value.0| > 0 && |r.value.1| > 0 && AllDigits(r.value.1)
  {
    var m := FirstMatch(word, 0);
    if m.None? then None
    else
      var q := LetterEnd(word, m.value);
      var e := DigitEnd(word, q);
      Some((ToLower(word[m.value..q]), word[q..e]))
  }

  /** The groups come from the leftmost match: the letter group is the whole
      run of letters starting there, lower-cased, and the digit group the
      whole run of digits after it. */
  lemma CheerTokenGroups(word: Str, p: nat)
    requires p < |word| && MatchesAt(word, p)
    requires forall s :: 0 <= s < p ==> !MatchesAt(word, s)
    ensures var q := LetterEnd(word, p);
            var e := DigitEnd(word, q);
            && CheerToken(word) == Some((ToLower(word[p..q]), word[q..e]))
            && PatternAt(word, p, q) && q < e
            && (e == |word| || !IsAsciiDigit(word[e]))
  {
    MatchesAtIff(word, p, LetterEnd(word, p));
  }

  /** `Bits.GetCheer` with the image cache passed in and returned. `fetch`
      stands for downloading the tier's image and saving it under that name. */
  function GetCheer(table: CheerTable, cache: ImageCache, word: Str, fetch: Str -> Option<Image>)
    : (r: Result<(Cheer, ImageCache), BitsError>)
    ensures r.Ok? ==> cache.Keys <= r.value.1.Keys
    ensures r.Ok? ==> forall name :: name in cache ==> r.value.1[name] == cache[name]
    ensures r.Ok? && Consistent(cache, fetch) ==> Consistent(r.value.1, fetch)
    ensures CheerToken(word).None? || CheerToken(word).value.0 !in table ==> r == Ok((DefaultCheer, cache))
    ensures CheerToken(word).Some? && CheerToken(word).value.0 in table ==>
              var name := CheerToken(word).value.0;
              var tiers := table[name];
              var amount := DecimalValue(CheerToken(word).value.1);
              var key := CacheName(name, SelectTier(tiers, amount));
              && (r.Err? <==> amount > Int32Max || !HasKey(tiers, SelectTier(tiers, amount)))
              && (r.Err? && amount > Int32Max ==> r.error == AmountOverflow)
              && (r.Err? && amount <= Int32Max ==> r.error == MissingTier(SelectTier(tiers, amount)))
              && (r.Ok? ==>
                    && r.value.0.amount == amount
                    && r.value.0.emote == (if key in cache then cache[key] else fetch(key))
                    && key in r.value.1 && r.value.1[key] == r.value.0.emote)
  {
    match CheerToken(word)
    case None => Ok((DefaultCheer, cache))
    case Some((name, digits)) =>
      if name !in table then Ok((DefaultCheer, cache))
      else
        var tiers := table[name];
        var amount :- ParseInt32(digits);
        var maxCheer := SelectTier(tiers, amount);
        var cacheName := CacheName(name, maxCheer);
        var tier :- TierAt(tiers, maxCheer);
        if cacheName in cache then
          Ok((Cheer(cache[cacheName], tier.color, amount), cache))
        else
          var img := fetch(cacheName);
          Ok((Cheer(img, tier.color, amount), cache[cacheName := img]))
  }

  /** The cheer a word resolves to when every image is looked up afresh. */
  function CheerOf(table: CheerTable, word: Str, fetch: Str -> Option<Image>): Result<Cheer, BitsError>
  {
    match GetCheer(table, map[], word, fetch)
    case Ok((c, _)) => Ok(c)
    case Err(e) => Err(e)
  }

  /** Caching is invisible: with a cache holding only what the download
      gives, `GetCheer` answers exactly as a fresh lookup would, and the cache
      it returns still holds only downloaded images. */
  lemma CachedCheerAgrees(table: CheerTable, cache: ImageCache, word: Str, fetch: Str -> Option<Image>)
    requires Consistent(cache, fetch)
    ensures GetCheer(table, cache, word, fetch).Ok? <==> CheerOf(table, word, fetch).Ok?
    ensures GetCheer(table, cache, word, fetch).Ok? ==>
              GetCheer(table, cache, word, fetch).value.0 == CheerOf(table, word, fetch).value
    ensures GetCheer(table, cache, word, fetch).Err? ==>
              GetCheer(table, cache, word, fetch).error == CheerOf(table, word, fetch).error
  {
  }

  /** A recognised cheer reports the parsed digit run as its amount, and the
      colour of the highest tier whose MinBits does not exceed it. */
  lemma CheerPicksHighestTier(table: CheerTable, word: Str, fetch: Str -> Option<Image>)
    requires CheerToken(word).Some? && CheerToken(word).value.0 in table
    requires CheerOf(table, word, fetch).Ok?
    ensures var c := CheerOf(table, word, fetch).value;
            var tiers := table[CheerToken(word).value.0];
            && c.amount == DecimalValue(CheerToken(word).value.1)
            && exists i :: 0 <= i < |tiers| && tiers[i].color == c.color && tiers[i].minBits <= c.amount
                 && c.emote == fetch(CacheName(CheerToken(word).value.0, tiers[i].minBits))
                 && forall j :: 0 <= j < |tiers| && tiers[j].minBits <= c.amount ==> tiers[j].minBits <= tiers[i].minBits
  {
    var name := CheerToken(word).value.0;
    var digits := CheerToken(word).value.1;
    var tiers := table[name];
    var amount := DecimalValue(digits);
    var sel := SelectTier(tiers, amount);
    var tier := TierAt(tiers, sel).value;
    var i :| 0 <= i < |tiers| && tiers[i] == tier;
  }

  /** When no tier is at or below the amount (and none has MinBits 0), the
      lookup of key 0 fails: "cheer0" against tiers starting at 1 raises. */
  lemma CheerBelowAllTiersFails(table: CheerTable, word: Str, fetch: Str -> Option<Image>)
    requires CheerToken(word).Some? && CheerToken(word).value.0 in table
    requires DecimalValue(CheerToken(word).value.1) <= Int32Max
    requires forall i :: 0 <= i < |table[CheerToken(word).value.0]| ==>
               table[CheerToken(word).value.0][i].minBits > DecimalValue(CheerToken(word).value.1)
                 || table[CheerToken(word).value.0][i].minBits < 0
    ensures CheerOf(table, word, fetch) == Err(MissingTier(0))
  {
  }
}
