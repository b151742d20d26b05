/** The runtime-bundle token cache (internal/app/runtime_bundle_token.go,
    internal/app/runtime_controls.go:14-62). Times are readings of a clock. */
module TokenCache {
  import opened Prelude
  import opened Publish
  import opened OldestFirst

  type Token = string
  type AllocationId = string

  datatype Access = Access(allocation: AllocationId, includeWeights: bool, createdAt: int, expiresAt: int)

  function Digit(d: nat): char
    requires d < 10
  {
    '0' + d as char
  }

  function Decimal(n: nat): string {
    if n < 10 then [Digit(n)] else Decimal(n / 10) + [Digit(n % 10)]
  }

  /** The token text: a digest prefix and the sequence number. */
  function TokenText(stem: string, n: nat): Token {
    "rb_" + stem + "_" + Decimal(n)
  }

  /** The number at the end of a text. */
  function SeqOf(t: Token): nat {
    if t == "" || !('0' <= t[|t| - 1] <= '9') then 0
    else SeqOf(t[..|t| - 1]) * 10 + (t[|t| - 1] - '0') as nat
  }

  lemma {:induction false} SeqOfDecimal(front: string, n: nat)
    requires front != "" && !('0' <= front[|front| - 1] <= '9')
    ensures SeqOf(front + Decimal(n)) == n
  {
    var t := front + Decimal(n);
    if n < 10 {
      assert t[..|t| - 1] == front;
    } else {
      SeqOfDecimal(front, n / 10);
      assert t[..|t| - 1] == front + Decimal(n / 10);
    }
  }

  /** A token text gives its sequence number back, so different numbers give different tokens,
      whatever the digests are. */
  lemma TokenTextInjective(stem: string, n: nat)
    ensures SeqOf(TokenText(stem, n)) == n
  {
    SeqOfDecimal("rb_" + stem + "_", n);
  }

  function CreatedAt(a: Access): int {
    a.createdAt
  }

  predicate Expired(a: Access, now: int) {
    now > a.expiresAt
  }

  function Unexpired(tokens: map<Token, Access>, now: int): map<Token, Access> {
    map t | t in tokens && !Expired(tokens[t], now) :: tokens[t]
  }

  function Except(tokens: map<Token, Access>, allocation: AllocationId): map<Token, Access> {
    map t | t in tokens && tokens[t].allocation != allocation :: tokens[t]
  }

  function TokensOf(tokens: map<Token, Access>, allocation: AllocationId): set<Token> {
    set t | t in tokens && tokens[t].allocation == allocation
  }

  predicate SetOk(tokens: map<Token, Access>, index: map<AllocationId, set<Token>>, a: AllocationId) {
    (a in index <==> TokensOf(tokens, a) != {}) && (a in index ==> index[a] == TokensOf(tokens, a))
  }

  /** The two indexes say the same, and no set is empty. */
  ghost predicate Inverse(tokens: map<Token, Access>, index: map<AllocationId, set<Token>>) {
    forall a :: SetOk(tokens, index, a)
  }

  lemma InverseDelete(tokens: map<Token, Access>, index: map<AllocationId, set<Token>>, t: Token)
    requires Inverse(tokens, index) && t in tokens
    ensures var a := tokens[t].allocation;
      && a in index && t in index[a]
      && Inverse(tokens - {t}, if index[a] == {t} then index - {a} else index[a := index[a] - {t}])
  {
    var a := tokens[t].allocation;
    assert SetOk(tokens, index, a) && t in TokensOf(tokens, a);
    var index' := if index[a] == {t} then index - {a} else index[a := index[a] - {t}];
    forall b ensures SetOk(tokens - {t}, index', b) {
      assert SetOk(tokens, index, b);
      assert TokensOf(tokens - {t}, b) == if a == b then TokensOf(tokens, a) - {t} else TokensOf(tokens, b);
    }
  }

  /** Every token comes from a sequence number already used. */
  ghost predicate Minted(tokens: map<Token, Access>, last: nat) {
    forall t :: t in tokens ==> SeqOf(t) <= last
  }

  predicate Unrevoked(tokens: map<Token, Access>, revoked: set<AllocationId>) {
    forall t :: t in tokens ==> tokens[t].allocation !in revoked
  }

  lemma FewerTokens(before: map<Token, Access>, after: map<Token, Access>, last: nat, revoked: set<AllocationId>)
    requires Minted(before, last) && Unrevoked(before, revoked)
    requires forall t :: t in after ==> t in before && after[t] == before[t]
    ensures Minted(after, last) && Unrevoked(after, revoked)
  {
  }

  /** Using the next number keeps every token minted. */
  lemma FreshText(tokens: map<Token, Access>, last: nat, token: Token, access: Access, revoked: set<AllocationId>)
    requires Minted(tokens, last) && SeqOf(token) == last + 1 && Unrevoked(tokens, revoked)
    ensures token !in tokens && Minted(tokens[token := access], last + 1)
    ensures Unrevoked(tokens[token := access], revoked - {access.allocation})
  {
  }

  class Cache {
    const maxTokens: int
    const ttl: int
    var tokens: map<Token, Access>
    var byAllocation: map<AllocationId, set<Token>>
    var lastSeq: nat
    var hits: nat
    var misses: nat
    var evictions: nat
    ghost var issued: nat
    ghost var revoked: set<AllocationId>

    constructor (maxTokens: int, ttl: int)
      ensures Valid() && tokens == map[] && issued == evictions == hits == misses == 0 && revoked == {}
      ensures this.maxTokens == maxTokens && this.ttl == ttl
    {
      this.maxTokens, this.ttl := maxTokens, ttl;
      tokens, byAllocation, lastSeq, hits, misses, evictions := map[], map[], 0, 0, 0, 0;
      issued, revoked := 0, {};
    }

    function Limit(): (n: nat)
      ensures n > 0
      ensures maxTokens > 0 ==> n == maxTokens
      ensures maxTokens <= 0 ==> n == 1024
    {
      if maxTokens <= 0 then 1024 else maxTokens
    }

    /** All but the limit, which an issue may exceed by one for a moment. */
    ghost predicate Sound()
      reads this
    {
      && Inverse(tokens, byAllocation)
      && Minted(tokens, lastSeq)
      && issued == |tokens| + evictions
      && Unrevoked(tokens, revoked)
    }

    ghost predicate Valid()
      reads this
    {
      Sound() && |tokens| <= Limit()
    }

    /** Takes a token out of both indexes. */
    method Delete(token: Token, allocation: AllocationId)
      requires Inverse(tokens, byAllocation) && token in tokens && tokens[token].allocation == allocation
      modifies this`tokens, this`byAllocation
      ensures tokens == old(tokens) - {token} && Inverse(tokens, byAllocation)
      ensures |tokens| == old(|tokens|) - 1
    {
      RemovedSize(tokens, token);
      InverseDelete(tokens, byAllocation, token);
      tokens := tokens - {token};
      if allocation !in byAllocation { return; }
      var rest := byAllocation[allocation] - {token};
      byAllocation := byAllocation[allocation := rest];
      if rest == {} { byAllocation := byAllocation - {allocation}; }
    }

    /** Drops the tokens whose time is over, one by one. */
    method CleanupExpired(now: int)
      requires Inverse(tokens, byAllocation)
      modifies this`tokens, this`byAllocation, this`evictions
      ensures tokens == Unexpired(old(tokens), now) && Inverse(tokens, byAllocation)
      ensures forall t :: t in tokens <==> t in old(tokens) && now <= old(tokens)[t].expiresAt
      ensures |tokens| + evictions == old(|tokens| + evictions) && |tokens| <= old(|tokens|)
    {
      var left := tokens.Keys;
      var evicted := 0;
      while left != {}
        invariant left <= tokens.Keys <= old(tokens).Keys && Inverse(tokens, byAllocation)
        invariant forall t :: t in tokens ==> tokens[t] == old(tokens)[t]
        invariant forall t :: t in old(tokens) && t !in left ==> (t in tokens <==> !Expired(old(tokens)[t], now))
        invariant |tokens| + evicted == old(|tokens|) && evictions == old(evictions)
        decreases |left|
      {
        var t :| t in left;
        left := left - {t};
        if Expired(tokens[t], now) {
          Delete(t, tokens[t].allocation);
          evicted := evicted + 1;
        }
      }
      assert tokens == Unexpired(old(tokens), now);
      evictions := evictions + evicted;
    }

    /** Brings the cache down to its limit by dropping the oldest tokens. */
    method EnforceLimit()
      requires Inverse(tokens, byAllocation)
      modifies this`tokens, this`byAllocation, this`evictions
      ensures Inverse(tokens, byAllocation) && |tokens| + evictions == old(|tokens| + evictions)
      ensures |tokens| == if old(|tokens|) <= Limit() then old(|tokens|) else Limit()
      ensures OldestDropped(old(tokens), tokens)
      ensures old(|tokens|) <= Limit() ==> tokens == old(tokens)
    {
      if |tokens| <= Limit() { return; }
      var evicted := DropOldestTokens(|tokens| - Limit());
      evictions := evictions + evicted;
    }

    method DropOldestTokens(toEvict: nat) returns (evicted: nat)
      requires Inverse(tokens, byAllocation) && toEvict <= |tokens|
      modifies this`tokens, this`byAllocation
      ensures Inverse(tokens, byAllocation) && evicted == toEvict && |tokens| + evicted == old(|tokens|)
      ensures OldestDropped(old(tokens), tokens)
    {
      var ages := Ages(tokens, CreatedAt);
      var cs := Candidates(ages);
      SameSize(ages, tokens);
      ghost var was := tokens;
      evicted := DeleteFirst(cs, toEvict, ages);
      SurvivorsAreYounger(tokens, was, cs, ages, evicted);
    }

    method DeleteFirst(cs: seq<Aged>, toEvict: nat, ghost ages: map<Token, int>) returns (evicted: nat)
      requires ages.Keys == tokens.Keys && IsAgeOrder(cs, ages) && toEvict <= |cs|
      requires Inverse(tokens, byAllocation)
      modifies this`tokens, this`byAllocation
      ensures evicted == toEvict && Remain(tokens, old(tokens), cs, evicted)
      ensures Inverse(tokens, byAllocation) && |tokens| + evicted == old(|tokens|)
    {
      ghost var was := tokens;
      evicted := 0;
      NoneDropped(tokens, cs);
      while evicted < |cs| && evicted < toEvict
        invariant evicted <= toEvict && |tokens| + evicted == |was|
        invariant Remain(tokens, was, cs, evicted) && Inverse(tokens, byAllocation)
      {
        DeleteCandidate(cs, evicted, ages, was);
        evicted := evicted + 1;
      }
    }

    method DeleteCandidate(cs: seq<Aged>, n: nat, ghost ages: map<Token, int>, ghost was: map<Token, Access>)
      requires n < |cs| && ages.Keys == was.Keys && IsAgeOrder(cs, ages)
      requires Remain(tokens, was, cs, n) && Inverse(tokens, byAllocation)
      modifies this`tokens, this`byAllocation
      ensures Remain(tokens, was, cs, n + 1) && Inverse(tokens, byAllocation)
      ensures |tokens| == old(|tokens|) - 1
    {
      RemainStep(tokens, was, cs, ages, n);
      Delete(cs[n].key, tokens[cs[n].key].allocation);
    }

    method Sweep(now: int)
      requires Valid()
      modifies this`tokens, this`byAllocation, this`evictions
      ensures Valid() && tokens == Unexpired(old(tokens), now)
    {
      CleanupExpired(now);
      FewerTokens(old(tokens), tokens, lastSeq, revoked);
    }

    /** Puts a token into both indexes. */
    method Insert(token: Token, access: Access)
      requires Inverse(tokens, byAllocation) && token !in tokens
      modifies this`tokens, this`byAllocation
      ensures tokens == old(tokens)[token := access] && Inverse(tokens, byAllocation)
      ensures |tokens| == old(|tokens|) + 1
    {
      InverseInsert(tokens, byAllocation, token, access);
      GrownSize(tokens, token, access);
      tokens := tokens[token := access];
      var bucket := GetOr(byAllocation, access.allocation, {});
      byAllocation := byAllocation[access.allocation := bucket + {token}];
    }

    /** issueRuntimeBundleToken. `stem` is the digest prefix of the token text. */
    method Issue(allocation: AllocationId, includeWeights: bool, stem: string, now: int)
      returns (token: Token, expiresAt: int)
      requires Valid()
      modifies this
      ensures Valid()
      ensures issued == old(issued) + 1 && revoked == old(revoked) - {allocation}
      ensures token !in old(tokens) && "rb_" + stem + "_" <= token && expiresAt == now + ttl
      ensures IssuedOver(Unexpired(old(tokens), now), tokens, token,
                         Access(allocation, includeWeights, now, now + ttl), Limit())
      ensures forall t :: t in tokens && t != token ==> t in old(tokens) && now <= old(tokens)[t].expiresAt
      ensures hits == old(hits) && misses == old(misses)
    {
      expiresAt := now + ttl;
      token := NextText(stem);
      SweepAndAdd(token, Access(allocation, includeWeights, now, now + ttl), now);
    }

    method SweepAndAdd(token: Token, access: Access, now: int)
      requires Valid() && SeqOf(token) == lastSeq + 1
      modifies this`tokens, this`byAllocation, this`lastSeq, this`evictions, this`issued, this`revoked
      ensures Valid() && issued == old(issued) + 1 && revoked == old(revoked) - {access.allocation}
      ensures IssuedOver(Unexpired(old(tokens), now), tokens, token, access, Limit())
    {
      Sweep(now);
      Add(token, access);
    }

    /** nextRuntimeBundleToken. */
    method NextText(stem: string) returns (token: Token)
      ensures SeqOf(token) == lastSeq + 1 && "rb_" + stem + "_" <= token
    {
      TokenTextInjective(stem, lastSeq + 1);
      token := TokenText(stem, lastSeq + 1);
    }

    /** The token goes in, and the oldest go out when there are too many. */
    method Add(token: Token, access: Access)
      requires Valid() && SeqOf(token) == lastSeq + 1
      modifies this`tokens, this`byAllocation, this`lastSeq, this`evictions, this`issued, this`revoked
      ensures Valid() && issued == old(issued) + 1 && revoked == old(revoked) - {access.allocation}
      ensures IssuedOver(old(tokens), tokens, token, access, Limit())
    {
      PutIn(token, access);
      ghost var full := tokens;
      TakeOut();
      NewestStays(full, tokens, token);
    }

    method PutIn(token: Token, access: Access)
      requires Valid() && SeqOf(token) == lastSeq + 1
      modifies this`tokens, this`byAllocation, this`lastSeq, this`issued, this`revoked
      ensures Sound() && issued == old(issued) + 1 && revoked == old(revoked) - {access.allocation}
      ensures tokens == old(tokens)[token := access]
    {
      FreshText(tokens, lastSeq, token, access, revoked);
      lastSeq := lastSeq + 1;
      Insert(token, access);
      issued, revoked := issued + 1, revoked - {access.allocation};
    }

    method TakeOut()
      requires Sound()
      modifies this`tokens, this`byAllocation, this`evictions
      ensures Valid() && OldestDropped(old(tokens), tokens)
      ensures |tokens| == if old(|tokens|) <= Limit() then old(|tokens|) else Limit()
    {
      ghost var full := tokens;
      EnforceLimit();
      FewerTokens(full, tokens, lastSeq, revoked);
    }

    /** resolveRuntimeBundleToken. */
    method Resolve(text: string, now: int) returns (r: Option<Access>)
      requires Valid()
      modifies this
      ensures Valid() && issued == old(issued) && revoked == old(revoked)
      ensures tokens == if TrimSpace(text) == "" then old(tokens) else Unexpired(old(tokens), now)
      ensures r.Some? <==>
                && TrimSpace(text) != "" && TrimSpace(text) in old(tokens)
                && now <= old(tokens)[TrimSpace(text)].expiresAt
      ensures r.Some? ==> r.value == old(tokens)[TrimSpace(text)] && r.value.allocation !in revoked
      ensures hits == old(hits) + if r.Some? then 1 else 0
      ensures misses == old(misses) + if r.None? && TrimSpace(text) != "" then 1 else 0
    {
      var token := TrimSpace(text);
      if token == "" { return None; }
      r := Lookup(token, now);
    }

    method Lookup(token: Token, now: int) returns (r: Option<Access>)
      requires Valid()
      modifies this
      ensures Valid() && issued == old(issued) && revoked == old(revoked)
      ensures tokens == Unexpired(old(tokens), now)
      ensures r == if token in tokens then Some(tokens[token]) else None
      ensures r.Some? ==> r.value.allocation !in revoked
      ensures hits == old(hits) + if r.Some? then 1 else 0
      ensures misses == old(misses) + if r.None? then 1 else 0
    {
      Sweep(now);
      if token !in tokens {
        misses := misses + 1;
        return None;
      }
      assert !Expired(tokens[token], now);  // so the source's second check never fires
      hits := hits + 1;
      return Some(tokens[token]);
    }

    /** revokeRuntimeBundleTokensForAllocation. */
    method Revoke(text: string)
      requires Valid()
      modifies this
      ensures Valid() && issued == old(issued) && hits == old(hits) && misses == old(misses)
      ensures tokens == if TrimSpace(text) == "" then old(tokens) else Except(old(tokens), TrimSpace(text))
      ensures forall t :: t in tokens <==>
                t in old(tokens) && (TrimSpace(text) == "" || old(tokens)[t].allocation != TrimSpace(text))
      ensures revoked == if TrimSpace(text) == "" then old(revoked) else old(revoked) + {TrimSpace(text)}
    {
      var allocation := TrimSpace(text);
      if allocation == "" { return; }
      DropAllocation(allocation);
      revoked := revoked + {allocation};
    }

    method DropAllocation(allocation: AllocationId)
      requires Valid()
      modifies this`tokens, this`byAllocation, this`evictions
      ensures Valid() && tokens == Except(old(tokens), allocation)
    {
      FewerTokens(tokens, Except(tokens, allocation), lastSeq, revoked);
      DropBucket(allocation);
    }

    method DropBucket(allocation: AllocationId)
      requires Inverse(tokens, byAllocation)
      modifies this`tokens, this`byAllocation, this`evictions
      ensures Inverse(tokens, byAllocation) && tokens == Except(old(tokens), allocation)
      ensures |tokens| + evictions == old(|tokens| + evictions) && |tokens| <= old(|tokens|)
    {
      assert SetOk(tokens, byAllocation, allocation);
      InverseRevoke(tokens, byAllocation, allocation);
      if allocation !in byAllocation {
        assert TokensOf(tokens, allocation) == {};
        NoneOf(tokens, allocation);
        return;
      }
      var bucket := byAllocation[allocation];
      var evicted := DeleteAll(bucket);
      assert tokens == Except(old(tokens), allocation);
      byAllocation := byAllocation - {allocation};
      evictions := evictions + evicted;
    }

    method DeleteAll(bucket: set<Token>) returns (evicted: nat)
      requires bucket <= tokens.Keys
      modifies this`tokens
      ensures tokens == old(tokens) - bucket && |tokens| + evicted == old(|tokens|)
    {
      evicted := 0;
      var left := bucket;
      while left != {}
        invariant left <= bucket && left <= tokens.Keys
        invariant tokens == old(tokens) - (bucket - left) && |tokens| + evicted == old(|tokens|)
        decreases |left|
      {
        var t :| t in left;
        MinusStep(old(tokens), bucket, left, t);
        tokens := tokens - {t};
        left := left - {t};
        evicted := evicted + 1;
      }
      assert bucket - left == bucket;
    }
  }

  lemma MinusStep<K, V>(m: map<K, V>, a: set<K>, left: set<K>, k: K)
    requires k in left && left <= a <= m.Keys
    ensures k in m - (a - left) && m - (a - left) - {k} == m - (a - (left - {k}))
    ensures |m - (a - (left - {k}))| == |m - (a - left)| - 1
  {
    RemovedSize(m - (a - left), k);
    assert m - (a - left) - {k} == m - (a - (left - {k}));
  }

  lemma NoneOf(tokens: map<Token, Access>, allocation: AllocationId)
    requires TokensOf(tokens, allocation) == {}
    ensures Except(tokens, allocation) == tokens
  {
    assert forall t :: t in tokens && tokens[t].allocation == allocation ==> t in TokensOf(tokens, allocation);
  }

  /** What issuing does to the tokens still in time: the new one joins, only the oldest go and
      only beyond the limit, and a token newer than all others stays. */
  ghost predicate IssuedOver(before: map<Token, Access>, after: map<Token, Access>, token: Token,
                             access: Access, limit: nat) {
    && OldestDropped(before[token := access], after)
    && |after| == (if |before[token := access]| <= limit then |before[token := access]| else limit)
    && ((forall t :: t in before ==> before[t].createdAt < access.createdAt) ==> token in after)
  }

  /** A token newer than all others is never the one dropped. */
  lemma NewestStays(before: map<Token, Access>, after: map<Token, Access>, token: Token)
    requires OldestDropped(before, after) && |after| > 0 && token in before
    ensures (forall t :: t in before && t != token ==> before[t].createdAt < before[token].createdAt) ==> token in after
  {
    assert after.Keys != {};
    var u :| u in after;
    var ages := Ages(before, CreatedAt);
    assert ages[u] == before[u].createdAt && ages[token] == before[token].createdAt;
    assert NoYounger(ages, after.Keys, token, u);
  }

  lemma InverseInsert(tokens: map<Token, Access>, index: map<AllocationId, set<Token>>, t: Token, access: Access)
    requires Inverse(tokens, index) && t !in tokens
    ensures var a := access.allocation;
      Inverse(tokens[t := access], index[a := GetOr(index, a, {}) + {t}])
  {
    var a := access.allocation;
    var tokens', index' := tokens[t := access], index[a := GetOr(index, a, {}) + {t}];
    assert SetOk(tokens, index, a);
    forall b ensures SetOk(tokens', index', b) {
      assert SetOk(tokens, index, b);
      assert TokensOf(tokens', b) == if a == b then TokensOf(tokens, a) + {t} else TokensOf(tokens, b);
    }
  }

  lemma InverseRevoke(tokens: map<Token, Access>, index: map<AllocationId, set<Token>>, a: AllocationId)
    requires Inverse(tokens, index)
    ensures Inverse(Except(tokens, a), index - {a})
  {
    forall b ensures SetOk(Except(tokens, a), index - {a}, b) {
      assert SetOk(tokens, index, b);
      assert TokensOf(Except(tokens, a), b) == if a == b then {} else TokensOf(tokens, b);
    }
  }

  /** Tokens only went, and none that went was created after one that stayed. */
  ghost predicate OldestDropped(before: map<Token, Access>, after: map<Token, Access>) {
    && (forall t :: t in after ==> t in before && after[t] == before[t])
    && OldestGone(Ages(before, CreatedAt), after.Keys)
  }
}
