/** The decision logic of `upgradeAndVerifyTimestamp` (index-local.js): from a
    stored proof, the OpenTimestamps library and the block explorer, decide
    whether the proof is now anchored in a Bitcoin block, still pending with a
    re-serialised proof file, or unchanged. The library calls, the explorer
    lookups and the date formatting are inputs of the model (a `World`). */
module Verify {
  import opened Wrappers
  import opened Json
  import opened Hex
  import opened Attestations

  /** `OpenTimestamps.upgrade(ots)`: whether the proof file changed, and the
      timestamp tree as the call leaves it. A call that throws is
      `changed == false`. */
  datatype Upgraded = Upgraded(changed: bool, tree: Node)

  /** What the two explorer requests (block hash by height, then the block)
      produce: a thrown error, a response that is not ok, or the parsed block
      with its optional `timestamp` in seconds. */
  datatype Fetch = Threw | NotOk | Fetched(timestamp: Option<int>)

  /** The outside world as seen by one verification. `iso` and `locale` are
      `toISOString()` and `toLocaleString('en-US')` of the date at the given
      second count; `now` is `new Date().toISOString()`. */
  datatype World = World(
    deserialize: seq<byte> -> Option<Node>,
    upgrade: Node -> Upgraded,
    serialize: Node -> seq<byte>,
    fetchBlock: int -> Fetch,
    iso: int -> string,
    locale: int -> string,
    now: string)

  /** The largest magnitude, in milliseconds, of a valid JavaScript date. */
  const MaxTimeMs := 8640000000000000

  /** `!isNaN(new Date(t * 1000).getTime())`. */
  predicate ValidDate(t: int)
  {
    -MaxTimeMs <= t * 1000 <= MaxTimeMs
  }

  /** The `blockTime` the result carries: `null`, the attestation's raw second
      count, or an ISO date string. */
  datatype TimeValue = NoTime | Seconds(t: int) | Iso(s: string)

  /** `blockTime` and `blockTimeFormatted` while they are being resolved;
      `None` is `null`. */
  datatype Resolved = Resolved(time: TimeValue, formatted: Option<string>)

  /** JavaScript truthiness of `blockTimeFormatted`. */
  predicate Shown(f: Option<string>)
  {
    f.Some? && f.value != ""
  }

  /** The verification result; `null` is `None` around it. */
  datatype VerifyResult =
    | Verified(blockHeight: string, blockTime: TimeValue, blockTimeFormatted: string, otsData: string)
    | StillPending(otsData: string)

  function BlockLabel(height: string): string
  {
    "Block #" + height
  }

  function TimeUnknownLabel(height: string): string
  {
    "Block #" + height + " (time unknown)"
  }

  /** The time the attestation itself gives: formatted only when it is truthy
      and a valid date. */
  function AttestedTime(t: Option<int>, w: World): (r: Resolved)
    ensures Shown(r.formatted) ==> t.Some? && t.value != 0 && ValidDate(t.value)
    ensures t.Some? && t.value != 0 && ValidDate(t.value) ==>
      r == Resolved(Iso(w.iso(t.value)), Some(w.locale(t.value)))
    ensures (t.None? || t.value == 0) ==> r == Resolved(NoTime, None)
  {
    if t.Some? && t.value != 0 then
      if ValidDate(t.value) then Resolved(Iso(w.iso(t.value)), Some(w.locale(t.value)))
      else Resolved(Seconds(t.value), None)
    else Resolved(NoTime, None)
  }

  /** The explorer fallback, run only when the attestation gave no usable
      formatted time. A thrown error, including `toISOString` on an invalid
      date, shows the current time; a response that is not ok, or a block
      without a timestamp, leaves what the attestation gave. */
  function ResolveTime(height: int, r: Resolved, w: World): (out: Resolved)
    ensures Shown(r.formatted) ==> out == r
  {
    if Shown(r.formatted) then r
    else
      match w.fetchBlock(height)
      case Threw => Resolved(Iso(w.now), Some(TimeUnknownLabel(IntToDecimal(height))))
      case NotOk => r
      case Fetched(ts) =>
        if ts.Some? && ts.value != 0 then
          if ValidDate(ts.value) then Resolved(Iso(w.iso(ts.value)), Some(w.locale(ts.value)))
          else Resolved(Iso(w.now), Some(TimeUnknownLabel(IntToDecimal(height))))
        else r
  }

  /** The `verified` result built from the first attestation found. */
  function VerifiedResult(f: Found, tree: Node, w: World): VerifyResult
  {
    var h := IntToDecimal(f.blockHeight);
    var r := ResolveTime(f.blockHeight, AttestedTime(f.blockTime, w), w);
    Verified(h, r.time, if Shown(r.formatted) then r.formatted.value else BlockLabel(h), BytesToHex(w.serialize(tree)))
  }

  /** A proof the verifier can work on: truthy `otsData` and `hash`. */
  predicate HasOts(p: Obj)
  {
    Defined(Field(p, "otsData")) && Defined(Field(p, "hash"))
  }

  /** `hexToBytes(proof.otsData)`; a value that is not a string has no
      `length` and yields no bytes. */
  function OtsBytes(v: Value): seq<byte>
  {
    if v.Str? then DecodeHex(v.s) else []
  }

  /** The deserialized proof file; `None` when deserialization throws. */
  function Deserialized(p: Obj, w: World): Option<Node>
    requires HasOts(p)
  {
    w.deserialize(OtsBytes(p["otsData"]))
  }

  /** The tree after the upgrade attempt. */
  function UpgradedTree(p: Obj, w: World): Node
    requires HasOts(p) && Deserialized(p, w).Some?
  {
    w.upgrade(Deserialized(p, w).value).tree
  }

  /** The attestations found after the upgrade, for a proof that deserializes. */
  function FoundAfterUpgrade(p: Obj, w: World): seq<Found>
    requires HasOts(p) && Deserialized(p, w).Some?
  {
    Extract(Some(w.upgrade(Deserialized(p, w).value).tree))
  }

  /** `upgradeAndVerifyTimestamp(proof)`. */
  function UpgradeAndVerify(p: Obj, w: World): Option<VerifyResult>
  {
    if !HasOts(p) then None
    else
      match Deserialized(p, w)
      case None => None
      case Some(ots) =>
        var up := w.upgrade(ots);
        var atts := Extract(Some(up.tree));
        if atts != [] then Some(VerifiedResult(atts[0], up.tree, w))
        else if up.changed then Some(StillPending(BytesToHex(w.serialize(up.tree))))
        else None
  }

  // ---------------------------------------------------------------------------
  // Lemmas
  // ---------------------------------------------------------------------------

  /** No result exactly when `otsData` or `hash` is missing, the file does not
      deserialize, or there is neither an attestation nor an upgrade. */
  lemma NullExactly(p: Obj, w: World)
    ensures UpgradeAndVerify(p, w).None? <==>
      !HasOts(p) || Deserialized(p, w).None? ||
      (FoundAfterUpgrade(p, w) == [] && !w.upgrade(Deserialized(p, w).value).changed)
  {
  }

  /** `pending` exactly when the upgrade changed the file but no attestation
      was found; it carries the re-serialised file as lower-case hex. */
  lemma PendingExactly(p: Obj, w: World)
    ensures (UpgradeAndVerify(p, w).Some? && UpgradeAndVerify(p, w).value.StillPending?) <==>
      HasOts(p) && Deserialized(p, w).Some? && FoundAfterUpgrade(p, w) == [] &&
      w.upgrade(Deserialized(p, w).value).changed
    ensures UpgradeAndVerify(p, w).Some? && UpgradeAndVerify(p, w).value.StillPending? ==>
      UpgradeAndVerify(p, w).value.otsData == BytesToHex(w.serialize(UpgradedTree(p, w))) &&
      IsLowerHex(UpgradeAndVerify(p, w).value.otsData)
  {
    if UpgradeAndVerify(p, w).Some? && UpgradeAndVerify(p, w).value.StillPending? {
      BytesToHexIsLowerHex(w.serialize(UpgradedTree(p, w)));
    }
  }

  /** `verified` exactly when an attestation was found, whether or not the
      upgrade changed anything. The height is that of the first height-bearing
      attestation in pre-order, the formatted time is never empty and the
      file is re-serialised. */
  lemma {:induction false} VerifiedExactly(p: Obj, w: World)
    ensures (UpgradeAndVerify(p, w).Some? && UpgradeAndVerify(p, w).value.Verified?) <==>
      HasOts(p) && Deserialized(p, w).Some? && FoundAfterUpgrade(p, w) != []
    ensures UpgradeAndVerify(p, w).Some? && UpgradeAndVerify(p, w).value.Verified? ==>
      var tree := UpgradedTree(p, w);
      var v := UpgradeAndVerify(p, w).value;
      OwnAll(Preorder(tree)) != [] &&
      v.blockHeight == IntToDecimal(OwnAll(Preorder(tree))[0].blockHeight) &&
      v.blockTimeFormatted != "" &&
      v.otsData == BytesToHex(w.serialize(tree))
  {
    if HasOts(p) && Deserialized(p, w).Some? && FoundAfterUpgrade(p, w) != [] {
      var tree := UpgradedTree(p, w);
      ExtractIsPreorder(Some(tree));
      VerifiedFormattedNonEmpty(FoundAfterUpgrade(p, w)[0], tree, w);
    }
  }

  /** `blockTimeFormatted || \`Block #${blockHeight}\`` is never empty. */
  lemma VerifiedFormattedNonEmpty(f: Found, tree: Node, w: World)
    ensures VerifiedResult(f, tree, w).blockTimeFormatted != ""
    ensures VerifiedResult(f, tree, w).blockHeight == IntToDecimal(f.blockHeight)
  {
  }

  /** When the attestation's own time is a valid date with a non-empty
      rendering, the explorer is never consulted: the result is the same
      whatever it would answer, and it carries that time. */
  lemma AttestedTimeSkipsFetch(f: Found, tree: Node, w: World, explorer: int -> Fetch)
    requires f.blockTime.Some? && f.blockTime.value != 0 && ValidDate(f.blockTime.value)
    requires w.locale(f.blockTime.value) != ""
    ensures VerifiedResult(f, tree, w) == VerifiedResult(f, tree, w.(fetchBlock := explorer))
    ensures VerifiedResult(f, tree, w).blockTime == Iso(w.iso(f.blockTime.value))
    ensures VerifiedResult(f, tree, w).blockTimeFormatted == w.locale(f.blockTime.value)
  {
  }

  /** Without an attestation time, an explorer error shows the current time
      and `Block #h (time unknown)`. So does a block timestamp that is not a
      valid date, because `toISOString` throws inside the same `try`. */
  lemma TimeUnknownWhenFetchFails(f: Found, tree: Node, w: World)
    requires f.blockTime.None?
    requires w.fetchBlock(f.blockHeight).Threw? ||
      (w.fetchBlock(f.blockHeight).Fetched? && w.fetchBlock(f.blockHeight).timestamp.Some? &&
       w.fetchBlock(f.blockHeight).timestamp.value != 0 && !ValidDate(w.fetchBlock(f.blockHeight).timestamp.value))
    ensures VerifiedResult(f, tree, w).blockTime == Iso(w.now)
    ensures VerifiedResult(f, tree, w).blockTimeFormatted == TimeUnknownLabel(IntToDecimal(f.blockHeight))
  {
  }

  /** Without an attestation time, a response that is not ok, or a block
      without a timestamp, is not an error: the time stays `null` and the
      label is `Block #h`. */
  lemma NoTimeAfterNotOk(f: Found, tree: Node, w: World)
    requires f.blockTime.None?
    requires w.fetchBlock(f.blockHeight).NotOk? ||
      (w.fetchBlock(f.blockHeight).Fetched? &&
       (w.fetchBlock(f.blockHeight).timestamp.None? || w.fetchBlock(f.blockHeight).timestamp.value == 0))
    ensures VerifiedResult(f, tree, w).blockTime == NoTime
    ensures VerifiedResult(f, tree, w).blockTimeFormatted == BlockLabel(IntToDecimal(f.blockHeight))
  {
  }

  /** Without an attestation time, a valid block timestamp from the explorer
      gives the time and its rendering (or `Block #h` if that is empty). */
  lemma ExplorerTime(f: Found, tree: Node, w: World)
    requires f.blockTime.None?
    requires w.fetchBlock(f.blockHeight).Fetched? && w.fetchBlock(f.blockHeight).timestamp.Some?
    requires w.fetchBlock(f.blockHeight).timestamp.value != 0 && ValidDate(w.fetchBlock(f.blockHeight).timestamp.value)
    ensures var ts := w.fetchBlock(f.blockHeight).timestamp.value;
      VerifiedResult(f, tree, w).blockTime == Iso(w.iso(ts)) &&
      VerifiedResult(f, tree, w).blockTimeFormatted ==
        (if w.locale(ts) != "" then w.locale(ts) else BlockLabel(IntToDecimal(f.blockHeight)))
  {
  }

  /** An attestation time that is not a valid date is kept as the raw second
      count when the explorer gives nothing either. */
  lemma InvalidAttestedTimeKept(f: Found, tree: Node, w: World)
    requires f.blockTime.Some? && f.blockTime.value != 0 && !ValidDate(f.blockTime.value)
    requires w.fetchBlock(f.blockHeight).NotOk?
    ensures VerifiedResult(f, tree, w).blockTime == Seconds(f.blockTime.value)
    ensures VerifiedResult(f, tree, w).blockTimeFormatted == BlockLabel(IntToDecimal(f.blockHeight))
  {
  }

  /** A time of 0 is treated as no time at all. */
  lemma ZeroTimeIsAbsent(h: int, tree: Node, w: World)
    ensures VerifiedResult(Found(h, Some(0)), tree, w) == VerifiedResult(Found(h, None), tree, w)
  {
  }
}
