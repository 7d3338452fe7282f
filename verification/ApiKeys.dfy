/** API keys are stored as a prefix and a hash; looking a key up through the prefix index gives
    what a scan of the keys themselves would give. */
module ApiKeys {
  import opened Common

  const KEY_PREFIX_LITERAL := "gw_live_"
  const KEY_PREFIX_INDEX_LEN: nat := 8
  const KEY_RANDOM_CHARS: nat := 64

  /** `_extract_lookup_prefix`. */
  function ExtractLookupPrefix(raw: string): Option<string> {
    if !(KEY_PREFIX_LITERAL <= raw) then None
    else
      var body := raw[|KEY_PREFIX_LITERAL|..];
      if |body| < KEY_PREFIX_INDEX_LEN then None else Some(body[..KEY_PREFIX_INDEX_LEN])
  }

  /** The index prefix of a key is the eight characters behind `gw_live_`; a text that does not begin so, or
      has fewer than eight behind it, has none. */
  lemma PrefixMeans(raw: string, prefix: string)
    ensures ExtractLookupPrefix(raw) == Some(prefix) <==>
            exists rest :: raw == "gw_live_" + prefix + rest && |prefix| == 8
    ensures ExtractLookupPrefix("gw_live_" + prefix).Some? <==> |prefix| >= 8
  {
    if ExtractLookupPrefix(raw) == Some(prefix) {
      assert raw == "gw_live_" + prefix + raw[16..];
    }
    if rest :| raw == "gw_live_" + prefix + rest && |prefix| == 8 {
      assert raw == "gw_live_" + (prefix + rest) && raw[8..] == prefix + rest;
    }
    assert ("gw_live_" + prefix)[8..] == prefix;
  }

  /** The shape `generate_key` gives a key. */
  predicate IsGenerated(raw: string) {
    KEY_PREFIX_LITERAL <= raw && |raw| == |KEY_PREFIX_LITERAL| + KEY_RANDOM_CHARS
  }

  datatype KeyRow = KeyRow(merchant: string, prefix: string, hash: string, active: bool, lastUsed: Option<int>)

  datatype Refusal = MissingKey | MalformedKey | UnknownKey | RevokedKey | InactiveMerchant

  // -------------------------------------------------- what was really issued

  /** A key as it was handed out; the row keeps only its prefix and hash. */
  datatype Issued = Issued(raw: string, merchant: string, revoked: bool)

  datatype KeyAction = Issue(raw: string, merchant: string) | Revoke(id: nat, owner: string)

  /** Issuing appends a key; revoking marks the key if it is the owner's, and otherwise fails. */
  function After(issued: seq<Issued>, a: KeyAction): seq<Issued> {
    match a
    case Issue(raw, merchant) => issued + [Issued(raw, merchant, false)]
    case Revoke(id, owner) =>
      if id < |issued| && issued[id].merchant == owner then issued[id := issued[id].(revoked := true)] else issued
  }

  function AfterAll(issued: seq<Issued>, actions: seq<KeyAction>): seq<Issued>
    decreases actions
  {
    if actions == [] then issued else AfterAll(After(issued, actions[0]), actions[1..])
  }

  function RawIs(raw: string): Issued -> bool {
    (k: Issued) => k.raw == raw
  }

  /** Authentication by a full scan of the issued keys. */
  function FullScan(issued: seq<Issued>, merchants: map<string, bool>, raw: string): Result<string, Refusal> {
    if raw == "" then Err(MissingKey)
    else if ExtractLookupPrefix(raw).None? then Err(MalformedKey)
    else
      match One(issued, RawIs(raw))
      case OneRow(i) =>
        var k := issued[i];
        if k.revoked then Err(RevokedKey)
        else if k.merchant in merchants && merchants[k.merchant] then Ok(k.merchant)
        else Err(InactiveMerchant)
      case _ => Err(UnknownKey)
  }

  ghost predicate FreshKeys(issued: seq<Issued>, actions: seq<KeyAction>)
    decreases actions
  {
    actions == [] ||
    ((actions[0].Issue? ==> IsGenerated(actions[0].raw) && forall k :: k in issued ==> k.raw != actions[0].raw)
     && FreshKeys(After(issued, actions[0]), actions[1..]))
  }

  ghost predicate KeysOk(issued: seq<Issued>) {
    && (forall i :: 0 <= i < |issued| ==> IsGenerated(issued[i].raw))
    && (forall i, j :: 0 <= i < j < |issued| ==> issued[i].raw != issued[j].raw)
  }

  /** A key is accepted, for a merchant, exactly when it was issued to that merchant, is not
      revoked, and the merchant is active. */
  lemma AcceptedMeans(issued: seq<Issued>, merchants: map<string, bool>, raw: string, merchant: string)
    requires KeysOk(issued)
    ensures FullScan(issued, merchants, raw) == Ok(merchant) <==>
            && (exists k :: k in issued && k == Issued(raw, merchant, false))
            && merchant in merchants && merchants[merchant]
  {
    var found := One(issued, RawIs(raw));
    if found.OneRow? {
      assert issued[found.row] in issued && RawIs(raw)(issued[found.row]);
    }
    if exists k :: k in issued && k == Issued(raw, merchant, false) {
      var i :| 0 <= i < |issued| && issued[i] == Issued(raw, merchant, false);
      GeneratedHasPrefix(raw);
      ScanFinds(issued, i);
    }
  }

  /** Why a key is refused: nothing was presented; it is not of the shape of a key; no key of that text was
      issued; the one that was is revoked; or its merchant is not active. */
  lemma RefusedMeans(issued: seq<Issued>, merchants: map<string, bool>, raw: string)
    requires KeysOk(issued)
    ensures var r := FullScan(issued, merchants, raw);
            var shaped := exists prefix, rest :: raw == "gw_live_" + prefix + rest && |prefix| == 8;
            && (r == Err(MissingKey) <==> raw == "")
            && (r == Err(MalformedKey) <==> raw != "" && !shaped)
            && (r == Err(UnknownKey) <==> shaped && forall k :: k in issued ==> k.raw != raw)
            && (r == Err(RevokedKey) <==> exists k :: k in issued && k.raw == raw && k.revoked)
            && (r == Err(InactiveMerchant) <==>
                  exists k ::
                    k in issued && k.raw == raw && !k.revoked && !(k.merchant in merchants && merchants[k.merchant]))
  {
    Shaped(raw);
    if exists k :: k in issued && k.raw == raw {
      var i :| 0 <= i < |issued| && issued[i].raw == raw;
      GeneratedHasPrefix(raw);
      ScanFinds(issued, i);
      assert forall k :: k in issued && k.raw == raw ==> k == issued[i];
      assert issued[i] in issued;
    } else {
      forall i | 0 <= i < |issued| ensures issued[i].raw != raw {
        assert issued[i] in issued;
      }
      ScanMisses(issued, raw);
    }
  }

  lemma Shaped(raw: string)
    ensures ExtractLookupPrefix(raw).Some? <==>
            exists prefix, rest :: raw == "gw_live_" + prefix + rest && |prefix| == 8
    ensures ExtractLookupPrefix(raw).Some? ==> raw != ""
  {
    if ExtractLookupPrefix(raw).Some? {
      var prefix := ExtractLookupPrefix(raw).value;
      PrefixMeans(raw, prefix);
      var rest :| raw == "gw_live_" + prefix + rest && |prefix| == 8;
    }
    if prefix, rest :| raw == "gw_live_" + prefix + rest && |prefix| == 8 {
      PrefixMeans(raw, prefix);
    }
  }

  /** What an action does to the keys issued: issuing appends one, for the merchant and not revoked, and leaves
      the others; revoking marks the key if it is the owner's, and changes nothing else. */
  lemma ActionMeans(issued: seq<Issued>, a: KeyAction, i: nat)
    requires i < |issued|
    ensures var after := After(issued, a);
            && |after| == |issued| + (if a.Issue? then 1 else 0)
            && (a.Issue? ==> after[|issued|] == Issued(a.raw, a.merchant, false) && after[i] == issued[i])
            && (a.Revoke? ==>
                  after[i] == issued[i].(revoked := issued[i].revoked || (a.id == i && issued[i].merchant == a.owner)))
  {
  }

  /** A generated key is `gw_live_` and 64 characters. */
  lemma GeneratedMeans(raw: string)
    ensures IsGenerated(raw) <==> exists body :: raw == "gw_live_" + body && |body| == 64
  {
    if IsGenerated(raw) {
      assert raw == "gw_live_" + raw[8..];
    }
  }

  lemma GeneratedHasPrefix(raw: string)
    requires IsGenerated(raw)
    ensures raw != "" && ExtractLookupPrefix(raw).Some?
  {
  }

  lemma ScanFinds(issued: seq<Issued>, i: nat)
    requires KeysOk(issued) && i < |issued|
    ensures One(issued, RawIs(issued[i].raw)) == OneRow(i)
  {
    var raw := issued[i].raw;
    assert RawIs(raw)(issued[i]);
    assert forall j, l :: 0 <= j < l < |issued| ==> !(RawIs(raw)(issued[j]) && RawIs(raw)(issued[l]));
  }

  lemma ScanMisses(issued: seq<Issued>, raw: string)
    requires forall i :: 0 <= i < |issued| ==> issued[i].raw != raw
    ensures One(issued, RawIs(raw)) == NoRow
  {
    assert forall i :: 0 <= i < |issued| ==> !RawIs(raw)(issued[i]);
  }

  lemma AfterOk(issued: seq<Issued>, a: KeyAction)
    requires KeysOk(issued)
    requires a.Issue? ==> IsGenerated(a.raw) && forall k :: k in issued ==> k.raw != a.raw
    ensures KeysOk(After(issued, a))
  {
    assert forall i :: 0 <= i < |issued| ==> issued[i] in issued;
  }

  /** Once revoked, a key is refused for ever, whatever is issued and revoked afterwards and
      whichever merchants are active. */
  lemma {:induction false} RevokedForEver(issued: seq<Issued>, actions: seq<KeyAction>, i: nat,
                                          merchants: map<string, bool>)
    requires KeysOk(issued) && FreshKeys(issued, actions) && i < |issued| && issued[i].revoked
    ensures FullScan(AfterAll(issued, actions), merchants, issued[i].raw) == Err(RevokedKey)
    decreases actions
  {
    if actions == [] {
      GeneratedHasPrefix(issued[i].raw);
      ScanFinds(issued, i);
    } else {
      AfterOk(issued, actions[0]);
      RevokedForEver(After(issued, actions[0]), actions[1..], i, merchants);
    }
  }

  // -------------------------------------------------------------- the store

  ghost predicate Injective(hash: string -> string) {
    forall x, y :: hash(x) == hash(y) ==> x == y
  }

  /** The positions of the rows with a prefix, in table order. */
  function Candidates(rows: seq<KeyRow>, prefix: string): (ids: seq<nat>)
    ensures forall i: nat :: i in ids <==> i < |rows| && rows[i].prefix == prefix
    ensures forall k :: 0 <= k < |ids| ==> ids[k] < |rows|
  {
    if rows == [] then []
    else
      var n := |rows| - 1;
      Candidates(rows[..n], prefix) + if rows[n].prefix == prefix then [n] else []
  }

  class KeyStore {
    const hash: string -> string
    var rows: seq<KeyRow>
    var merchants: map<string, bool>
    ghost var issued: seq<Issued>

    ghost predicate Valid()
      reads this
    {
      && Injective(hash) && KeysOk(issued) && |rows| == |issued|
      && forall i :: 0 <= i < |rows| ==>
           && rows[i].merchant == issued[i].merchant && rows[i].active == !issued[i].revoked
           && ExtractLookupPrefix(issued[i].raw) == Some(rows[i].prefix)
           && rows[i].hash == hash(issued[i].raw)
    }

    constructor (hash: string -> string)
      requires Injective(hash)
      ensures Valid() && issued == []
    {
      this.hash := hash;
      rows, merchants, issued := [], map[], [];
    }

    /** A merchant is created, activated or deactivated. */
    method SetMerchant(merchant: string, active: bool)
      requires Valid()
      modifies this`merchants
      ensures Valid() && merchants == old(merchants)[merchant := active]
    {
      merchants := merchants[merchant := active];
    }

    /** `create_api_key`, with the key that was generated. */
    method CreateApiKey(merchant: string, raw: string) returns (id: nat)
      requires Valid() && IsGenerated(raw) && forall k :: k in issued ==> k.raw != raw
      modifies this`rows, this`issued
      ensures Valid() && issued == After(old(issued), Issue(raw, merchant)) && id == |old(issued)|
    {
      id := |rows|;
      GeneratedHasPrefix(raw);
      AfterOk(issued, Issue(raw, merchant));
      rows := rows + [KeyRow(merchant, ExtractLookupPrefix(raw).value, hash(raw), true, None)];
      issued := issued + [Issued(raw, merchant, false)];
    }

    /** `revoke_api_key`: fails alike for a key that does not exist and one of another merchant. */
    method RevokeApiKey(id: nat, merchant: string) returns (found: bool)
      requires Valid()
      modifies this`rows, this`issued
      ensures Valid() && issued == After(old(issued), Revoke(id, merchant))
      ensures found <==> id < |issued| && issued[id].merchant == merchant
      ensures found ==> issued[id].revoked
    {
      found := id < |rows| && rows[id].merchant == merchant;
      if found {
        AfterOk(issued, Revoke(id, merchant));
        rows := rows[id := rows[id].(active := false)];
        issued := issued[id := issued[id].(revoked := true)];
      }
    }

    /** The comparison loop: the first candidate whose hash is the incoming one. */
    method MatchHash(candidates: seq<nat>, incoming: string) returns (matched: Option<nat>)
      requires forall k :: 0 <= k < |candidates| ==> candidates[k] < |rows|
      ensures matched.Some? ==>
              matched.value in candidates && matched.value < |rows| && rows[matched.value].hash == incoming
      ensures matched.None? ==> forall i: nat :: i in candidates && i < |rows| ==> rows[i].hash != incoming
    {
      matched := None;
      var n := 0;
      while n < |candidates|
        invariant 0 <= n <= |candidates|
        invariant matched == None
        invariant forall k :: 0 <= k < n ==> rows[candidates[k]].hash != incoming
      {
        if rows[candidates[n]].hash == incoming {
          matched := Some(candidates[n]);
          break;
        }
        n := n + 1;
      }
    }

    /** Prefix and hash together identify the key: a row matches exactly when its key is the one presented. */
    lemma RowMatches(i: nat, raw: string)
      requires Valid() && i < |rows|
      ensures ExtractLookupPrefix(raw) == Some(rows[i].prefix) && rows[i].hash == hash(raw) <==> issued[i].raw == raw
    {
    }

    /** `verify_api_key`: through the prefix index and the hashes it answers what a full scan of the
        issued keys answers, prefix collisions included, and success alone marks the key as used. */
    method VerifyApiKey(raw: string, now: int) returns (r: Result<string, Refusal>)
      requires Valid()
      modifies this`rows
      ensures Valid() && r == FullScan(issued, merchants, raw)
      ensures |rows| == |old(rows)|
      ensures forall i :: 0 <= i < |rows| ==>
                rows[i] == if r.Ok? && issued[i].raw == raw then old(rows)[i].(lastUsed := Some(now)) else old(rows)[i]
    {
      if raw == "" {
        return Err(MissingKey);
      }
      var prefix := ExtractLookupPrefix(raw);
      if prefix.None? {
        return Err(MalformedKey);
      }
      var matched := MatchHash(Candidates(rows, prefix.value), hash(raw));
      if matched.None? {
        forall i | 0 <= i < |issued| ensures issued[i].raw != raw {
          RowMatches(i, raw);
        }
        ScanMisses(issued, raw);
        return Err(UnknownKey);
      }
      var id := matched.value;
      RowMatches(id, raw);
      ScanFinds(issued, id);
      var row := rows[id];
      if !row.active {
        return Err(RevokedKey);
      }
      if !(row.merchant in merchants && merchants[row.merchant]) {
        return Err(InactiveMerchant);
      }
      rows := rows[id := row.(lastUsed := Some(now))];
      return Ok(row.merchant);
    }
  }
}
