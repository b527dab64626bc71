/** The proof list the server keeps in `proofs.json` (index-local.js) and the
    operations that change it: the lookup of `GET /api/proofs/:bagId`, the
    upsert of `POST /api/proofs`, the field merge of `PUT`, the `splice` of
    `DELETE`, and the background sweep of `checkPendingTimestamps`. Loading
    and saving the file become the `ProofStore` object's state and a
    `saveOk` flag: a failed save leaves the stored state as it was. */
module Store {
  import opened Wrappers
  import opened Json
  import opened Attestations
  import opened Verify

  /** The image part of a `POST`: none, stored under `url`, or an upload
      that threw. */
  datatype Upload = NoFile | Stored(url: string) | UploadFailed

  /** The HTTP outcome of a request handler. */
  datatype Response = Created(proof: Obj) | Ok(proof: Obj) | Deleted | BadRequest | NotFound | ServerError

  /** `p.bagId`; `None` is `undefined`. */
  function IdOf(p: Obj): Option<Value>
  {
    Field(p, "bagId")
  }

  /** `proofs.findIndex(p => p.bagId === id)`. */
  function FindIndex(proofs: seq<Obj>, id: Option<Value>): (r: int)
    ensures -1 <= r < |proofs|
    ensures r >= 0 ==> IdOf(proofs[r]) == id
    ensures r >= 0 ==> forall k :: 0 <= k < r ==> IdOf(proofs[k]) != id
    ensures r < 0 ==> forall k :: 0 <= k < |proofs| ==> IdOf(proofs[k]) != id
  {
    if proofs == [] then -1
    else if IdOf(proofs[0]) == id then 0
    else
      var r := FindIndex(proofs[1..], id);
      if r < 0 then -1 else r + 1
  }

  /** No two proofs share a `bagId` (and at most one has none). */
  predicate UniqueIds(proofs: seq<Obj>)
  {
    forall i, j :: 0 <= i < j < |proofs| ==> IdOf(proofs[i]) != IdOf(proofs[j])
  }

  // ---------------------------------------------------------------------------
  // POST /api/proofs
  // ---------------------------------------------------------------------------

  /** The record a `POST` builds from the form fields: each field when truthy,
      its default otherwise. Fields of the body that are not listed are
      dropped. */
  function NewProof(body: Obj, tokenPacker: string, imageUrl: Value, now: string): Obj
    requires Defined(Field(body, "bagId"))
  {
    map[
      "bagId" := body["bagId"],
      "version" := Or(Field(body, "version"), Str("Unknown")),
      "packer" := Or(Field(body, "packer"), Str("Unknown")),
      "sealedBy" := Str(tokenPacker),
      "date" := Or(Field(body, "date"), Str(now)),
      "hash" := Or(Field(body, "hash"), Null),
      "otsData" := Or(Field(body, "otsData"), Null),
      "status" := Or(Field(body, "status"), Str("pending")),
      "blockHeight" := Or(Field(body, "blockHeight"), Null),
      "blockTime" := Or(Field(body, "blockTime"), Null),
      "blockTimeFormatted" := Or(Field(body, "blockTimeFormatted"), Null),
      "imageUrl" := imageUrl,
      "createdAt" := Str(now),
      "updatedAt" := Str(now)]
  }

  /** The new record for a `bagId` that already exists: the old image when no
      new one was uploaded, the old `createdAt`, and the old `sealedBy` when
      it is set. */
  function Merge(prev: Obj, proof: Obj): (r: Obj)
    ensures Field(r, "createdAt") == Field(prev, "createdAt")
    ensures Defined(Field(prev, "sealedBy")) ==> Field(r, "sealedBy") == Field(prev, "sealedBy")
    ensures !Defined(Field(prev, "sealedBy")) ==> Field(r, "sealedBy") == Field(proof, "sealedBy")
    ensures !Defined(Field(proof, "imageUrl")) && Defined(Field(prev, "imageUrl")) ==>
      Field(r, "imageUrl") == Field(prev, "imageUrl")
    ensures Defined(Field(proof, "imageUrl")) || !Defined(Field(prev, "imageUrl")) ==>
      Field(r, "imageUrl") == Field(proof, "imageUrl")
    ensures forall k :: k != "createdAt" && k != "sealedBy" && k != "imageUrl" ==> Field(r, k) == Field(proof, k)
  {
    var withImage := if !Defined(Field(proof, "imageUrl")) && Defined(Field(prev, "imageUrl"))
      then SetField(proof, "imageUrl", Field(prev, "imageUrl")) else proof;
    var withCreated := SetField(withImage, "createdAt", Field(prev, "createdAt"));
    if Defined(Field(prev, "sealedBy")) then SetField(withCreated, "sealedBy", Field(prev, "sealedBy"))
    else withCreated
  }

  /** The record a `POST` stores and answers with. */
  function PostedProof(proofs: seq<Obj>, body: Obj, tokenPacker: string, imageUrl: Value, now: string): Obj
    requires Defined(Field(body, "bagId"))
  {
    var proof := NewProof(body, tokenPacker, imageUrl, now);
    var i := FindIndex(proofs, Field(body, "bagId"));
    if i >= 0 then Merge(proofs[i], proof) else proof
  }

  /** Replace the first record with the same `bagId`, or append. */
  function Upsert(proofs: seq<Obj>, proof: Obj): seq<Obj>
  {
    var i := FindIndex(proofs, IdOf(proof));
    if i >= 0 then proofs[i := proof] else proofs + [proof]
  }

  // ---------------------------------------------------------------------------
  // PUT and DELETE
  // ---------------------------------------------------------------------------

  /** `{...old, ...updates, updatedAt: now}`. */
  function Patched(prev: Obj, updates: Obj, now: string): Obj
  {
    (prev + updates)["updatedAt" := Str(now)]
  }

  /** `proofs.splice(i, 1)`. */
  function RemoveAt(proofs: seq<Obj>, i: nat): (r: seq<Obj>)
    requires i < |proofs|
    ensures |r| == |proofs| - 1
  {
    proofs[..i] + proofs[i + 1..]
  }

  // ---------------------------------------------------------------------------
  // The background sweep
  // ---------------------------------------------------------------------------

  /** The proofs the sweep works on: `status === 'pending'` with truthy
      `otsData` and `hash`. */
  predicate Selected(p: Obj)
  {
    Field(p, "status") == Some(Str("pending")) && HasOts(p)
  }

  /** `data.proofs.filter(...)`, in list order. */
  function PendingOf(proofs: seq<Obj>): (r: seq<Obj>)
    ensures |r| <= |proofs|
  {
    if proofs == [] then []
    else
      var last := proofs[|proofs| - 1];
      PendingOf(proofs[..|proofs| - 1]) + (if Selected(last) then [last] else [])
  }

  /** `s || null` for a string result field. */
  function StrOrNull(s: string): Value
  {
    Or(Some(Str(s)), Null)
  }

  /** `result.blockTime || null`. */
  function TimeOrNullValue(t: TimeValue): Value
  {
    match t
    case NoTime => Null
    case Seconds(x) => Or(Some(Num(x)), Null)
    case Iso(s) => StrOrNull(s)
  }

  /** The fields a result writes; a `pending` result has no `blockHeight`,
      `blockTime` or `blockTimeFormatted`, so they become `null`. */
  function ResultFields(r: VerifyResult, now: string): Obj
  {
    match r
    case Verified(h, t, f, ots) =>
      map["status" := Str("verified"), "otsData" := Str(ots), "blockHeight" := StrOrNull(h),
          "blockTime" := TimeOrNullValue(t), "blockTimeFormatted" := StrOrNull(f), "updatedAt" := Str(now)]
    case StillPending(ots) =>
      map["status" := Str("pending"), "otsData" := Str(ots), "blockHeight" := Null,
          "blockTime" := Null, "blockTimeFormatted" := Null, "updatedAt" := Str(now)]
  }

  /** `{...data.proofs[index], status: ..., updatedAt: now}`. */
  function ApplyResult(p: Obj, r: VerifyResult, now: string): Obj
  {
    p + ResultFields(r, now)
  }

  /** The proof list after one sweep step, and whether the step wrote. */
  datatype Swept = Swept(proofs: seq<Obj>, updated: bool)

  /** What verifying a proof returns, for the `k`-th selected proof `p`:
      each call asks the calendars and the explorer afresh, so every call
      may see a different world. */
  type Checker = (nat, Obj) -> Option<VerifyResult>

  /** One iteration of the sweep loop for `p`, the `k`-th selected proof. */
  function SweepStep(data: seq<Obj>, k: nat, p: Obj, verify: Checker, now: string): Swept
  {
    var r := verify(k, p);
    if r.None? then Swept(data, false)
    else
      var i := FindIndex(data, IdOf(p));
      if i < 0 then Swept(data, false)
      else Swept(data[i := ApplyResult(data[i], r.value, now)], true)
  }

  /** The sweep loop over the selected proofs `pending`, in order. */
  function SweepAll(data: seq<Obj>, pending: seq<Obj>, verify: Checker, now: string): Swept
  {
    if pending == [] then Swept(data, false)
    else
      var s := SweepAll(data, pending[..|pending| - 1], verify, now);
      var t := SweepStep(s.proofs, |pending| - 1, pending[|pending| - 1], verify, now);
      Swept(t.proofs, s.updated || t.updated)
  }

  /** One sweep over the whole list. */
  function Sweep(data: seq<Obj>, verify: Checker, now: string): Swept
  {
    SweepAll(data, PendingOf(data), verify, now)
  }

  /** The position of `proofs[i]` among the selected proofs, if it is one. */
  function PendingIndex(proofs: seq<Obj>, i: nat): nat
    requires i <= |proofs|
  {
    |PendingOf(proofs[..i])|
  }

  /** The reference reading of the sweep for a list with distinct `bagId`s:
      each proof on its own, `p` being the `k`-th selected one. */
  function Updated(p: Obj, k: nat, verify: Checker, now: string): Obj
  {
    if Selected(p) && verify(k, p).Some? then ApplyResult(p, verify(k, p).value, now) else p
  }

  function UpdatedAll(proofs: seq<Obj>, verify: Checker, now: string): (r: seq<Obj>)
    ensures |r| == |proofs|
  {
    seq(|proofs|, i requires 0 <= i < |proofs| => Updated(proofs[i], PendingIndex(proofs, i), verify, now))
  }

  /** Some selected proof has a result. */
  predicate AnyResult(proofs: seq<Obj>, verify: Checker)
  {
    exists i :: 0 <= i < |proofs| && Selected(proofs[i]) && verify(PendingIndex(proofs, i), proofs[i]).Some?
  }

  // ---------------------------------------------------------------------------
  // The store
  // ---------------------------------------------------------------------------

  /** The contents of `proofs.json`: the proof list and `lastUpdated`. */
  class ProofStore {
    var proofs: seq<Obj>
    var lastUpdated: Value

    /** An empty store, as a missing file reads. */
    constructor ()
      ensures proofs == [] && lastUpdated == Null
    {
      proofs := [];
      lastUpdated := Null;
    }

    /** `GET /api/proofs/:bagId`: the first proof with that `bagId`. */
    method Find(bagId: string) returns (resp: Response)
      ensures FindIndex(proofs, Some(Str(bagId))) >= 0 ==>
        resp == Ok(proofs[FindIndex(proofs, Some(Str(bagId)))])
      ensures FindIndex(proofs, Some(Str(bagId))) < 0 ==> resp == NotFound
      ensures resp.Ok? ==> IdOf(resp.proof) == Some(Str(bagId))
    {
      var i := FindIndex(proofs, Some(Str(bagId)));
      if i < 0 {
        return NotFound;
      }
      resp := Ok(proofs[i]);
    }

    /** `POST /api/proofs`: create or replace the proof for `body.bagId`. */
    method Create(body: Obj, tokenPacker: string, upload: Upload, now: string, saveOk: bool) returns (resp: Response)
      modifies this
      ensures !Defined(Field(body, "bagId")) ==> resp == BadRequest && unchanged(this)
      ensures Defined(Field(body, "bagId")) && upload.UploadFailed? ==> resp == ServerError && unchanged(this)
      ensures Defined(Field(body, "bagId")) && !upload.UploadFailed? ==>
        var imageUrl := if upload.Stored? then Str(upload.url) else Null;
        var proof := PostedProof(old(proofs), body, tokenPacker, imageUrl, now);
        if saveOk then
          resp == Created(proof) && proofs == Upsert(old(proofs), proof) && lastUpdated == Str(now)
        else
          resp == ServerError && unchanged(this)
    {
      var bagId := Field(body, "bagId");
      if !Defined(bagId) {
        return BadRequest;
      }
      var existingIndex := FindIndex(proofs, bagId);
      var imageUrl := Null;
      match upload {
        case NoFile =>
        case Stored(url) => imageUrl := Str(url);
        case UploadFailed => return ServerError;
      }
      var proof := NewProof(body, tokenPacker, imageUrl, now);
      var data := proofs;
      if existingIndex >= 0 {
        proof := Merge(data[existingIndex], proof);
        data := data[existingIndex := proof];
      } else {
        data := data + [proof];
      }
      PostedProofId(proofs, body, tokenPacker, imageUrl, now);
      if !saveOk {
        return ServerError;
      }
      proofs := data;
      lastUpdated := Str(now);
      resp := Created(proof);
    }

    /** `PUT /api/proofs/:bagId`: merge `updates` into the stored proof. */
    method Update(bagId: string, updates: Obj, now: string, saveOk: bool) returns (resp: Response)
      modifies this
      ensures var i := FindIndex(old(proofs), Some(Str(bagId)));
        if i < 0 then resp == NotFound && unchanged(this)
        else if !saveOk then resp == ServerError && unchanged(this)
        else
          var p := Patched(old(proofs)[i], updates, now);
          resp == Ok(p) && proofs == old(proofs)[i := p] && lastUpdated == Str(now)
    {
      var index := FindIndex(proofs, Some(Str(bagId)));
      if index < 0 {
        return NotFound;
      }
      var p := Patched(proofs[index], updates, now);
      if !saveOk {
        return ServerError;
      }
      proofs := proofs[index := p];
      lastUpdated := Str(now);
      resp := Ok(p);
    }

    /** `DELETE /api/proofs/:bagId`: remove the first proof with that id. */
    method Delete(bagId: string, now: string, saveOk: bool) returns (resp: Response)
      modifies this
      ensures var i := FindIndex(old(proofs), Some(Str(bagId)));
        if i < 0 then resp == NotFound && unchanged(this)
        else if !saveOk then resp == ServerError && unchanged(this)
        else resp == Deleted && proofs == RemoveAt(old(proofs), i) && lastUpdated == Str(now)
    {
      var index := FindIndex(proofs, Some(Str(bagId)));
      if index < 0 {
        return NotFound;
      }
      if !saveOk {
        return ServerError;
      }
      proofs := proofs[..index] + proofs[index + 1..];
      lastUpdated := Str(now);
      resp := Deleted;
    }

    /** `checkPendingTimestamps()`: verify every selected proof, the `k`-th
        one against `worlds(k)`, and write the list once, only if some proof
        changed. Returns whether the file was written. */
    method CheckPendingTimestamps(worlds: nat -> World, now: string, saveOk: bool) returns (wrote: bool)
      modifies this
      ensures var s := Sweep(old(proofs), (k: nat, p: Obj) => UpgradeAndVerify(p, worlds(k)), now);
        wrote == (s.updated && saveOk) &&
        proofs == (if wrote then s.proofs else old(proofs)) &&
        lastUpdated == (if wrote then Str(now) else old(lastUpdated))
    {
      var data := proofs;
      var pendingProofs := PendingOf(data);
      if |pendingProofs| == 0 {
        return false;
      }
      ghost var verify: Checker := (k: nat, p: Obj) => UpgradeAndVerify(p, worlds(k));
      var updated := false;
      var k := 0;
      while k < |pendingProofs|
        invariant 0 <= k <= |pendingProofs|
        invariant unchanged(this)
        invariant Swept(data, updated) == SweepAll(proofs, pendingProofs[..k], verify, now)
      {
        SweepAllSnoc(proofs, pendingProofs, k, verify, now);
        var proof := pendingProofs[k];
        var result := UpgradeAndVerify(proof, worlds(k));
        if result.Some? {
          var index := FindIndex(data, IdOf(proof));
          if index >= 0 {
            data := data[index := ApplyResult(data[index], result.value, now)];
            updated := true;
          }
        }
        k := k + 1;
      }
      assert pendingProofs[..k] == pendingProofs;
      if updated && saveOk {
        proofs := data;
        lastUpdated := Str(now);
        return true;
      }
      return false;
    }
  }

  // ---------------------------------------------------------------------------
  // Lemmas: lookup, upsert, merge and removal
  // ---------------------------------------------------------------------------

  /** `findIndex` is the first index holding `id`. */
  lemma FindIndexAt(proofs: seq<Obj>, j: nat, id: Option<Value>)
    requires j < |proofs| && IdOf(proofs[j]) == id
    requires forall k :: 0 <= k < j ==> IdOf(proofs[k]) != id
    ensures FindIndex(proofs, id) == j
  {
  }

  /** After an upsert the record is found under its `bagId`. A known `bagId`
      keeps the list length and replaces only the record it names; a new one
      is appended behind the unchanged list. */
  lemma FindAfterUpsert(proofs: seq<Obj>, proof: Obj)
    ensures var r := Upsert(proofs, proof);
      FindIndex(r, IdOf(proof)) >= 0 && r[FindIndex(r, IdOf(proof))] == proof
    ensures (exists k :: 0 <= k < |proofs| && IdOf(proofs[k]) == IdOf(proof)) ==>
      |Upsert(proofs, proof)| == |proofs|
    ensures (forall k :: 0 <= k < |proofs| ==> IdOf(proofs[k]) != IdOf(proof)) ==>
      Upsert(proofs, proof) == proofs + [proof]
    ensures forall k :: 0 <= k < |proofs| && IdOf(proofs[k]) != IdOf(proof) ==> Upsert(proofs, proof)[k] == proofs[k]
  {
    var i := FindIndex(proofs, IdOf(proof));
    var r := Upsert(proofs, proof);
    if i >= 0 {
      FindIndexAt(r, i, IdOf(proof));
    } else {
      FindIndexAt(r, |proofs|, IdOf(proof));
    }
  }

  /** An upsert keeps `bagId`s distinct. */
  lemma UpsertKeepsUnique(proofs: seq<Obj>, proof: Obj)
    requires UniqueIds(proofs)
    ensures UniqueIds(Upsert(proofs, proof))
  {
  }

  /** The record built from a form carries the posted `bagId`, the token's
      packer as `sealedBy`, the uploaded image (or `null`), and now as both
      timestamps. */
  lemma NewProofStamps(body: Obj, tokenPacker: string, imageUrl: Value, now: string)
    requires Defined(Field(body, "bagId"))
    ensures var p := NewProof(body, tokenPacker, imageUrl, now);
      IdOf(p) == Field(body, "bagId") &&
      Field(p, "sealedBy") == Some(Str(tokenPacker)) &&
      Field(p, "imageUrl") == Some(imageUrl) &&
      Field(p, "createdAt") == Some(Str(now)) &&
      Field(p, "updatedAt") == Some(Str(now))
  {
  }

  /** Each posted field is kept when truthy; otherwise `status` defaults to
      `pending`, `hash`, `otsData` and the three block fields to `null`,
      `version` and `packer` to `Unknown`, and `date` to the request time. */
  lemma NewProofDefaults(body: Obj, tokenPacker: string, imageUrl: Value, now: string)
    requires Defined(Field(body, "bagId"))
    ensures var p := NewProof(body, tokenPacker, imageUrl, now);
      Field(p, "status") == Some(Or(Field(body, "status"), Str("pending"))) &&
      Field(p, "hash") == Some(Or(Field(body, "hash"), Null)) &&
      Field(p, "otsData") == Some(Or(Field(body, "otsData"), Null))
    ensures var p := NewProof(body, tokenPacker, imageUrl, now);
      Field(p, "version") == Some(Or(Field(body, "version"), Str("Unknown"))) &&
      Field(p, "packer") == Some(Or(Field(body, "packer"), Str("Unknown")))
    ensures var p := NewProof(body, tokenPacker, imageUrl, now);
      Field(p, "date") == Some(Or(Field(body, "date"), Str(now))) &&
      Field(p, "blockHeight") == Some(Or(Field(body, "blockHeight"), Null)) &&
      Field(p, "blockTime") == Some(Or(Field(body, "blockTime"), Null)) &&
      Field(p, "blockTimeFormatted") == Some(Or(Field(body, "blockTimeFormatted"), Null))
  {
    var p := NewProof(body, tokenPacker, imageUrl, now);
    assert Field(p, "date") == Some(Or(Field(body, "date"), Str(now)));
    assert Field(p, "blockHeight") == Some(Or(Field(body, "blockHeight"), Null));
    assert Field(p, "blockTime") == Some(Or(Field(body, "blockTime"), Null));
    assert Field(p, "blockTimeFormatted") == Some(Or(Field(body, "blockTimeFormatted"), Null));
    assert Field(p, "status") == Some(Or(Field(body, "status"), Str("pending")));
    assert Field(p, "hash") == Some(Or(Field(body, "hash"), Null));
    assert Field(p, "otsData") == Some(Or(Field(body, "otsData"), Null));
    assert Field(p, "version") == Some(Or(Field(body, "version"), Str("Unknown")));
  }

  /** Posting a known `bagId` keeps the old `createdAt`, the old `sealedBy`
      if set, and the old image unless a new one was uploaded. */
  lemma PostedProofKeepsOld(proofs: seq<Obj>, body: Obj, tokenPacker: string, imageUrl: Value, now: string)
    requires Defined(Field(body, "bagId"))
    requires FindIndex(proofs, Field(body, "bagId")) >= 0
    ensures var p := PostedProof(proofs, body, tokenPacker, imageUrl, now);
      var prev := proofs[FindIndex(proofs, Field(body, "bagId"))];
      IdOf(p) == Field(body, "bagId") &&
      Field(p, "updatedAt") == Some(Str(now)) &&
      Field(p, "createdAt") == Field(prev, "createdAt") &&
      Field(p, "sealedBy") == (if Defined(Field(prev, "sealedBy")) then Field(prev, "sealedBy") else Some(Str(tokenPacker))) &&
      Field(p, "imageUrl") == (if !Truthy(imageUrl) && Defined(Field(prev, "imageUrl")) then Field(prev, "imageUrl") else Some(imageUrl))
  {
    NewProofStamps(body, tokenPacker, imageUrl, now);
  }

  /** The record a `POST` stores carries the posted `bagId`. */
  lemma PostedProofId(proofs: seq<Obj>, body: Obj, tokenPacker: string, imageUrl: Value, now: string)
    requires Defined(Field(body, "bagId"))
    ensures IdOf(PostedProof(proofs, body, tokenPacker, imageUrl, now)) == Field(body, "bagId")
  {
    NewProofStamps(body, tokenPacker, imageUrl, now);
  }

  /** Posting a new `bagId` stores the record as built. */
  lemma PostedProofNew(proofs: seq<Obj>, body: Obj, tokenPacker: string, imageUrl: Value, now: string)
    requires Defined(Field(body, "bagId"))
    requires FindIndex(proofs, Field(body, "bagId")) < 0
    ensures PostedProof(proofs, body, tokenPacker, imageUrl, now) == NewProof(body, tokenPacker, imageUrl, now)
    ensures Upsert(proofs, PostedProof(proofs, body, tokenPacker, imageUrl, now)) ==
      proofs + [NewProof(body, tokenPacker, imageUrl, now)]
  {
    NewProofStamps(body, tokenPacker, imageUrl, now);
  }

  /** `splice` removes exactly the record at `i` and keeps the rest in order;
      with distinct `bagId`s the id is gone afterwards and the rest stay
      distinct. */
  lemma RemoveAtEffect(proofs: seq<Obj>, i: nat)
    requires i < |proofs|
    ensures |RemoveAt(proofs, i)| == |proofs| - 1
    ensures forall k :: 0 <= k < i ==> RemoveAt(proofs, i)[k] == proofs[k]
    ensures forall k :: i <= k < |proofs| - 1 ==> RemoveAt(proofs, i)[k] == proofs[k + 1]
    ensures UniqueIds(proofs) ==> UniqueIds(RemoveAt(proofs, i))
    ensures UniqueIds(proofs) ==> FindIndex(RemoveAt(proofs, i), IdOf(proofs[i])) < 0
  {
    var r := RemoveAt(proofs, i);
    if UniqueIds(proofs) {
      forall k | 0 <= k < |r|
        ensures IdOf(r[k]) != IdOf(proofs[i])
      {
        if k < i {
          assert r[k] == proofs[k];
        } else {
          assert r[k] == proofs[k + 1];
        }
      }
    }
  }

  /** `PUT` keeps every field it is not given, overwrites those it is given,
      and stamps `updatedAt`. */
  lemma PatchedFields(prev: Obj, updates: Obj, now: string)
    ensures Field(Patched(prev, updates, now), "updatedAt") == Some(Str(now))
    ensures forall k :: k != "updatedAt" && k in updates ==> Field(Patched(prev, updates, now), k) == Some(updates[k])
    ensures forall k :: k != "updatedAt" && k !in updates ==> Field(Patched(prev, updates, now), k) == Field(prev, k)
  {
  }

  /** A `PUT` that does not touch `bagId` keeps ids distinct, and a lookup
      afterwards returns the patched record. */
  lemma FindAfterPatch(proofs: seq<Obj>, i: nat, updates: Obj, now: string)
    requires i < |proofs| && FindIndex(proofs, IdOf(proofs[i])) == i
    requires "bagId" !in updates
    ensures var r := proofs[i := Patched(proofs[i], updates, now)];
      FindIndex(r, IdOf(proofs[i])) == i && (UniqueIds(proofs) ==> UniqueIds(r))
  {
    var r := proofs[i := Patched(proofs[i], updates, now)];
    assert IdOf(r[i]) == IdOf(proofs[i]);
    FindIndexAt(r, i, IdOf(proofs[i]));
  }

  /** A `PUT` may rename a proof onto an existing `bagId`: nothing keeps ids
      distinct there. */
  lemma PatchCanDuplicateIds()
    ensures var proofs: seq<Obj> := [map["bagId" := Str("a")], map["bagId" := Str("b")]];
      UniqueIds(proofs) && !UniqueIds(proofs[1 := Patched(proofs[1], map["bagId" := Str("a")], "t")])
  {
    var proofs: seq<Obj> := [map["bagId" := Str("a")], map["bagId" := Str("b")]];
    var r := proofs[1 := Patched(proofs[1], map["bagId" := Str("a")], "t")];
    assert IdOf(r[0]) == IdOf(r[1]);
  }

  // ---------------------------------------------------------------------------
  // Lemmas: the sweep
  // ---------------------------------------------------------------------------

  /** A result keeps every field other than `status`, `otsData`,
      `blockHeight`, `blockTime`, `blockTimeFormatted` and `updatedAt`. */
  lemma ApplyResultKeeps(p: Obj, r: VerifyResult, now: string)
    ensures forall k :: (k != "status" && k != "otsData" && k != "blockHeight" && k != "blockTime" &&
      k != "blockTimeFormatted" && k != "updatedAt") ==> Field(ApplyResult(p, r, now), k) == Field(p, k)
  {
    var rf := ResultFields(r, now);
    assert forall k :: k !in rf ==> Field(ApplyResult(p, r, now), k) == Field(p, k);
  }

  /** The new status is `verified` or `pending` as the result says, with the
      result's proof file and the sweep's time. */
  lemma ApplyResultStatus(p: Obj, r: VerifyResult, now: string)
    ensures Field(ApplyResult(p, r, now), "status") == Some(Str(if r.Verified? then "verified" else "pending"))
    ensures Field(ApplyResult(p, r, now), "otsData") == Some(Str(r.otsData))
    ensures Field(ApplyResult(p, r, now), "updatedAt") == Some(Str(now))
  {
  }

  /** A `pending` result nulls the three block fields; a `verified` one
      writes its own, `null` where they are empty. */
  lemma ApplyResultBlockFields(p: Obj, r: VerifyResult, now: string)
    ensures r.StillPending? ==>
      Field(ApplyResult(p, r, now), "blockHeight") == Some(Null) &&
      Field(ApplyResult(p, r, now), "blockTime") == Some(Null) &&
      Field(ApplyResult(p, r, now), "blockTimeFormatted") == Some(Null)
    ensures r.Verified? ==>
      Field(ApplyResult(p, r, now), "blockHeight") == Some(StrOrNull(r.blockHeight)) &&
      Field(ApplyResult(p, r, now), "blockTime") == Some(TimeOrNullValue(r.blockTime)) &&
      Field(ApplyResult(p, r, now), "blockTimeFormatted") == Some(StrOrNull(r.blockTimeFormatted))
  {
  }

  lemma UpdatedKeepsId(p: Obj, k: nat, verify: Checker, now: string)
    ensures IdOf(Updated(p, k, verify, now)) == IdOf(p)
  {
    if Selected(p) && verify(k, p).Some? {
      ApplyResultKeeps(p, verify(k, p).value, now);
    }
  }

  /** Whatever the ids, a sweep keeps the length of the list and every
      `bagId` in place, and a sweep that reports no update changed nothing. */
  lemma {:induction false} SweepShape(data: seq<Obj>, pending: seq<Obj>, verify: Checker, now: string)
    ensures |SweepAll(data, pending, verify, now).proofs| == |data|
    ensures forall i :: 0 <= i < |data| ==> IdOf(SweepAll(data, pending, verify, now).proofs[i]) == IdOf(data[i])
    ensures !SweepAll(data, pending, verify, now).updated ==> SweepAll(data, pending, verify, now).proofs == data
  {
    if pending != [] {
      var init := pending[..|pending| - 1];
      var p := pending[|pending| - 1];
      SweepShape(data, init, verify, now);
      var s := SweepAll(data, init, verify, now);
      var r := verify(|pending| - 1, p);
      if r.Some? {
        var i := FindIndex(s.proofs, IdOf(p));
        if i >= 0 {
          ApplyResultKeeps(s.proofs[i], r.value, now);
        }
      }
    }
  }

  /** `filter` on one more element. */
  lemma PendingOfSnoc(data: seq<Obj>, m: nat)
    requires m < |data|
    ensures PendingOf(data[..m + 1]) == PendingOf(data[..m]) + (if Selected(data[m]) then [data[m]] else [])
  {
    assert data[..m + 1][..m] == data[..m];
  }

  /** A proof's position among the selected ones depends only on the proofs
      before it. */
  lemma PendingIndexPrefix(data: seq<Obj>, m: nat, i: nat)
    requires i <= m <= |data|
    ensures PendingIndex(data[..m], i) == PendingIndex(data, i)
  {
    assert data[..m][..i] == data[..i];
  }

  lemma UpdatedAllSnoc(data: seq<Obj>, m: nat, verify: Checker, now: string)
    requires m < |data|
    ensures UpdatedAll(data[..m + 1], verify, now) ==
      UpdatedAll(data[..m], verify, now) + [Updated(data[m], PendingIndex(data, m), verify, now)]
  {
    var a, b := UpdatedAll(data[..m + 1], verify, now), UpdatedAll(data[..m], verify, now);
    forall i | 0 <= i < m
      ensures a[i] == b[i]
    {
      PendingIndexPrefix(data, m + 1, i);
      PendingIndexPrefix(data, m, i);
    }
    PendingIndexPrefix(data, m + 1, m);
  }

  /** No two proofs before `m` in the handled list carry the `m`-th id. */
  lemma HandledIdsDiffer(data: seq<Obj>, m: nat, verify: Checker, now: string)
    requires UniqueIds(data) && m < |data|
    ensures var d := UpdatedAll(data[..m], verify, now) + data[m..];
      forall k :: 0 <= k < m ==> IdOf(d[k]) != IdOf(data[m])
  {
    var d := UpdatedAll(data[..m], verify, now) + data[m..];
    forall k | 0 <= k < m
      ensures IdOf(d[k]) != IdOf(data[m])
    {
      assert d[k] == Updated(data[k], PendingIndex(data[..m], k), verify, now);
      UpdatedKeepsId(data[k], PendingIndex(data[..m], k), verify, now);
    }
  }

  /** The sweep step for the `m`-th proof of a list with distinct ids, once
      the proofs before it have been handled, when it has a result. */
  lemma SweepStepWrites(data: seq<Obj>, m: nat, verify: Checker, now: string, v: VerifyResult)
    requires UniqueIds(data) && m < |data| && Selected(data[m])
    requires verify(PendingIndex(data, m), data[m]) == Some(v)
    ensures var d := UpdatedAll(data[..m], verify, now) + data[m..];
      SweepStep(d, PendingIndex(data, m), data[m], verify, now) ==
        Swept(UpdatedAll(data[..m + 1], verify, now) + data[m + 1..], true)
  {
    var pre := UpdatedAll(data[..m], verify, now);
    var d := pre + data[m..];
    assert d[m] == data[m];
    HandledIdsDiffer(data, m, verify, now);
    FindIndexAt(d, m, IdOf(data[m]));
    UpdatedAllSnoc(data, m, verify, now);
    WriteAtBoundary(pre, data, m, ApplyResult(data[m], v, now));
  }

  /** Writing at the boundary between the handled and the unhandled part. */
  lemma WriteAtBoundary(u: seq<Obj>, data: seq<Obj>, m: nat, x: Obj)
    requires |u| == m < |data|
    ensures (u + data[m..])[m := x] == u + [x] + data[m + 1..]
  {
  }

  /** The same step when the verification returns nothing. */
  lemma SweepStepSkips(data: seq<Obj>, m: nat, verify: Checker, now: string)
    requires m < |data| && verify(PendingIndex(data, m), data[m]).None?
    ensures var d := UpdatedAll(data[..m], verify, now) + data[m..];
      SweepStep(d, PendingIndex(data, m), data[m], verify, now) ==
        Swept(UpdatedAll(data[..m + 1], verify, now) + data[m + 1..], false)
  {
    UpdatedAllSnoc(data, m, verify, now);
    assert data[m..] == [data[m]] + data[m + 1..];
  }

  /** Whether the `m`-th proof is selected and has a result. */
  predicate HasResult(data: seq<Obj>, m: nat, verify: Checker)
    requires m < |data|
  {
    Selected(data[m]) && verify(PendingIndex(data, m), data[m]).Some?
  }

  lemma AnyResultSnoc(data: seq<Obj>, m: nat, verify: Checker)
    requires m < |data|
    ensures AnyResult(data[..m + 1], verify) == (AnyResult(data[..m], verify) || HasResult(data, m, verify))
  {
    var a := data[..m + 1];
    if AnyResult(a, verify) {
      var i :| 0 <= i < |a| && Selected(a[i]) && verify(PendingIndex(a, i), a[i]).Some?;
      PendingIndexPrefix(data, m + 1, i);
      if i < m {
        assert data[..m][i] == a[i];
        PendingIndexPrefix(data, m, i);
      }
    }
    if AnyResult(data[..m], verify) {
      var i :| 0 <= i < m && Selected(data[..m][i]) && verify(PendingIndex(data[..m], i), data[..m][i]).Some?;
      PendingIndexPrefix(data, m + 1, i);
      PendingIndexPrefix(data, m, i);
      assert a[i] == data[..m][i];
    }
    if HasResult(data, m, verify) {
      PendingIndexPrefix(data, m + 1, m);
      assert a[m] == data[m];
    }
  }

  /** The sweep state after the first `m` proofs of a list with distinct ids. */
  predicate HandledPrefix(data: seq<Obj>, m: nat, verify: Checker, now: string)
    requires m <= |data|
  {
    SweepAll(data, PendingOf(data[..m]), verify, now) ==
      Swept(UpdatedAll(data[..m], verify, now) + data[m..], AnyResult(data[..m], verify))
  }

  /** A selected proof is handled by one more sweep step. */
  lemma HandleSelected(data: seq<Obj>, k: nat, verify: Checker, now: string)
    requires UniqueIds(data) && k < |data| && Selected(data[k])
    requires HandledPrefix(data, k, verify, now)
    ensures HandledPrefix(data, k + 1, verify, now)
  {
    PendingOfSnoc(data, k);
    AnyResultSnoc(data, k, verify);
    var pend := PendingOf(data[..k + 1]);
    assert pend[..|pend| - 1] == PendingOf(data[..k]);
    assert pend[|pend| - 1] == data[k];
    assert |pend| - 1 == PendingIndex(data, k);
    if verify(PendingIndex(data, k), data[k]).Some? {
      SweepStepWrites(data, k, verify, now, verify(PendingIndex(data, k), data[k]).value);
    } else {
      SweepStepSkips(data, k, verify, now);
    }
  }

  /** A proof that is not selected is skipped by the filter. */
  lemma HandleUnselected(data: seq<Obj>, k: nat, verify: Checker, now: string)
    requires k < |data| && !Selected(data[k])
    requires HandledPrefix(data, k, verify, now)
    ensures HandledPrefix(data, k + 1, verify, now)
  {
    PendingOfSnoc(data, k);
    AnyResultSnoc(data, k, verify);
    assert PendingOf(data[..k + 1]) == PendingOf(data[..k]);
    UpdatedAllSnoc(data, k, verify, now);
    assert Updated(data[k], PendingIndex(data, k), verify, now) == data[k];
    ShiftOne(UpdatedAll(data[..k], verify, now), data, k);
  }

  /** Moving the boundary between the handled and the unhandled part by one. */
  lemma ShiftOne(u: seq<Obj>, data: seq<Obj>, k: nat)
    requires k < |data|
    ensures (u + [data[k]]) + data[k + 1..] == u + data[k..]
  {
    assert data[k..] == [data[k]] + data[k + 1..];
  }

  /** The sweep over the first `m` proofs of a list with distinct ids. */
  lemma {:induction false} SweepPrefix(data: seq<Obj>, m: nat, verify: Checker, now: string)
    requires UniqueIds(data) && m <= |data|
    ensures HandledPrefix(data, m, verify, now)
  {
    if m == 0 {
      assert data[..0] == [];
      assert UpdatedAll([], verify, now) + data[0..] == data;
    } else {
      SweepPrefix(data, m - 1, verify, now);
      if Selected(data[m - 1]) {
        HandleSelected(data, m - 1, verify, now);
      } else {
        HandleUnselected(data, m - 1, verify, now);
      }
    }
  }

  /** With distinct `bagId`s a sweep handles every proof on its own: a
      selected proof with a result gets that result, every other proof is
      left alone, and the sweep reports an update exactly when some selected
      proof had a result. */
  lemma SweepIsPointwise(data: seq<Obj>, verify: Checker, now: string)
    requires UniqueIds(data)
    ensures Sweep(data, verify, now) == Swept(UpdatedAll(data, verify, now), AnyResult(data, verify))
  {
    SweepPrefix(data, |data|, verify, now);
    assert data[..|data|] == data;
    assert data[|data|..] == [];
  }

  /** With distinct `bagId`s the only status changes a sweep makes are from
      `pending` to `verified`; a proof changes only when it was selected and
      its verification returned a result. */
  lemma SweepStatusTransitions(data: seq<Obj>, verify: Checker, now: string, i: nat)
    requires UniqueIds(data) && i < |data|
    ensures var d := Sweep(data, verify, now).proofs;
      |d| == |data| &&
      (d[i] != data[i] ==> Selected(data[i]) && verify(PendingIndex(data, i), data[i]).Some?) &&
      (Field(d[i], "status") == Field(data[i], "status") ||
       (Field(data[i], "status") == Some(Str("pending")) && Field(d[i], "status") == Some(Str("verified"))))
  {
    SweepIsPointwise(data, verify, now);
    var r := verify(PendingIndex(data, i), data[i]);
    if Selected(data[i]) && r.Some? {
      ApplyResultStatus(data[i], r.value, now);
    }
  }

  /** A verified proof and a later pending proof with the same `bagId`. */
  function DupVerified(): Obj
  {
    map["bagId" := Str("x"), "status" := Str("verified")]
  }

  function DupPending(): Obj
  {
    map["bagId" := Str("x"), "status" := Str("pending"), "otsData" := Str("00"), "hash" := Str("h")]
  }

  /** A world whose upgrade changes the file and finds no attestation. */
  function DupWorld(): World
  {
    World(bytes => Some(Node([], [])), n => Upgraded(true, n), n => [], h => NotOk, s => "", s => "", "now")
  }

  lemma DupPendingStaysPending()
    ensures UpgradeAndVerify(DupPending(), DupWorld()) == Some(StillPending(""))
  {
    assert HasOts(DupPending());
    ExtractEmpty();
  }

  /** With a repeated `bagId` the sweep writes a result onto the first proof
      with that id, whatever its status: here a `verified` proof is set back
      to `pending` by the result of a later pending duplicate. */
  lemma DuplicateIdsOverwrite()
    ensures var d := Sweep([DupVerified(), DupPending()], (k: nat, p: Obj) => UpgradeAndVerify(p, DupWorld()), "now").proofs;
      |d| == 2 && Field(d[0], "status") == Some(Str("pending"))
  {
    var a, b := DupVerified(), DupPending();
    var verify: Checker := (k: nat, p: Obj) => UpgradeAndVerify(p, DupWorld());
    PendingOfPair(a, b);
    DupPendingStaysPending();
    DupStep(verify);
    SweepAllSingle([a, b], b, verify, "now");
    ApplyResultStatus(a, StillPending(""), "now");
  }

  /** The pending duplicate's result lands on the first proof with its id. */
  lemma DupStep(verify: Checker)
    requires verify(0, DupPending()) == Some(StillPending(""))
    ensures SweepStep([DupVerified(), DupPending()], 0, DupPending(), verify, "now") ==
      Swept([ApplyResult(DupVerified(), StillPending(""), "now"), DupPending()], true)
  {
    assert FindIndex([DupVerified(), DupPending()], IdOf(DupPending())) == 0;
  }

  /** The sweep over one more selected proof is one more step. */
  lemma SweepAllSnoc(data: seq<Obj>, pending: seq<Obj>, k: nat, verify: Checker, now: string)
    requires k < |pending|
    ensures SweepAll(data, pending[..k + 1], verify, now) ==
      var s := SweepAll(data, pending[..k], verify, now);
      var t := SweepStep(s.proofs, k, pending[k], verify, now);
      Swept(t.proofs, s.updated || t.updated)
  {
    assert pending[..k + 1][..k] == pending[..k];
  }

  lemma SweepAllSingle(data: seq<Obj>, p: Obj, verify: Checker, now: string)
    ensures SweepAll(data, [p], verify, now) == SweepStep(data, 0, p, verify, now)
  {
    assert [p][..0] == [];
  }

  lemma PendingOfPair(a: Obj, b: Obj)
    requires !Selected(a) && Selected(b)
    ensures PendingOf([a, b]) == [b]
  {
    assert [a, b][..1] == [a];
    assert [a][..0] == [];
  }

  lemma ExtractEmpty()
    ensures Extract(Some(Node([], []))) == []
  {
    assert Walk(Node([], [])) == OwnFound([]) + WalkOps(Node([], []), 0);
  }
}
