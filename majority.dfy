/** The majority principle applied to a batch of bags read from one photo
    (index-local.js, `applyMajorityPrinciple` and `getMostFrequent`): every
    version or packer that the vision service reported as exactly "UNKNOWN"
    is replaced by the value most bags of the batch agree on. */
module Majority {
  import opened Wrappers
  import opened Json

  const Unknown: Value := Str("UNKNOWN")

  // ---------------------------------------------------------------------------
  // Counting
  // ---------------------------------------------------------------------------

  /** Number of occurrences of `x` in `s`. */
  function Count(s: seq<string>, x: string): (n: nat)
    ensures n > 0 <==> x in s
    ensures n <= |s|
  {
    if s == [] then 0
    else Count(s[..|s| - 1], x) + (if s[|s| - 1] == x then 1 else 0)
  }

  predicate Distinct(s: seq<string>)
  {
    forall i, j :: 0 <= i < j < |s| ==> s[i] != s[j]
  }

  /** Position of the first occurrence of `x` in `s`. */
  function FirstIndex(s: seq<string>, x: string): (i: nat)
    requires x in s
    ensures i < |s| && s[i] == x
    ensures forall j :: 0 <= j < i ==> s[j] != x
  {
    if x in s[..|s| - 1] then FirstIndex(s[..|s| - 1], x) else |s| - 1
  }

  /** The keys of a counts object filled by one pass over `s`, in their
      insertion order, that is, in order of first occurrence. (JavaScript's
      `Object.keys` lists keys that look like array indices first, in numeric
      order; version strings such as "v1.9.0" and packer names rarely have
      that form, though a number candidate does, and the model does not
      reproduce it.) */
  function Keys(s: seq<string>): (r: seq<string>)
    ensures forall x :: x in r <==> x in s
    ensures Distinct(r)
    ensures |r| <= |s|
  {
    if s == [] then []
    else
      var d := Keys(s[..|s| - 1]);
      if s[|s| - 1] in d then d else d + [s[|s| - 1]]
  }

  /** The index that `keys.reduce((a, b) => counts[a] > counts[b] ? a : b)`
      settles on: the accumulator is kept only when its count is strictly
      greater, so among keys of equal count the later one wins. */
  function ReduceIndex(s: seq<string>, ks: seq<string>): (i: nat)
    requires |ks| > 0
    ensures i < |ks|
    ensures forall j :: 0 <= j < |ks| ==> Count(s, ks[j]) <= Count(s, ks[i])
    ensures forall j :: i < j < |ks| ==> Count(s, ks[j]) < Count(s, ks[i])
  {
    if |ks| == 1 then 0
    else
      var a := ReduceIndex(s, ks[..|ks| - 1]);
      if Count(s, ks[a]) > Count(s, ks[|ks| - 1]) then a else |ks| - 1
  }

  /** `getMostFrequent` as a function of the counted keys: `None` (JavaScript
      `null`) for an empty input, otherwise a most frequent key. */
  function MostFrequent(s: seq<string>): (r: Option<string>)
    ensures r.None? <==> s == []
    ensures r.Some? ==> r.value in s
    ensures r.Some? ==> forall x :: x in s ==> Count(s, x) <= Count(s, r.value)
  {
    if s == [] then None
    else
      var ks := Keys(s);
      Some(ks[ReduceIndex(s, ks)])
  }

  /** The property keys the items of `arr` become: `counts[item]` converts
      each item with `String(item)`. */
  function KeysOf(arr: seq<Value>): (r: seq<string>)
    ensures |r| == |arr|
  {
    seq(|arr|, i requires 0 <= i < |arr| => ToKey(arr[i]))
  }

  /** `getMostFrequent(arr)`: an empty input gives `null`; otherwise the
      `forEach` pass fills the `counts` object and the reduce picks a key. */
  method GetMostFrequent(arr: seq<Value>) returns (r: Option<string>)
    ensures r == MostFrequent(KeysOf(arr))
    ensures r.None? <==> arr == []
  {
    if |arr| == 0 {
      return None;
    }
    var counts, keys := CountItems(arr);
    assert keys != [] by {
      assert KeysOf(arr)[0] in KeysOf(arr);
    }
    var best := ReduceKeys(counts, keys, KeysOf(arr));
    r := Some(keys[best]);
  }

  /** The `counts` object after the `forEach` pass over `s`. */
  function CountMap(s: seq<string>): (m: map<string, nat>)
    ensures forall k :: k in m <==> k in s
    ensures forall k :: k in m ==> m[k] == Count(s, k)
  {
    if s == [] then map[]
    else
      var m := CountMap(s[..|s| - 1]);
      var x := s[|s| - 1];
      if x in m then m[x := m[x] + 1] else m[x := 1]
  }

  /** The `forEach` pass: `counts[item] = (counts[item] || 0) + 1`, with the
      keys in the order the object acquires them. */
  method CountItems(arr: seq<Value>) returns (counts: map<string, nat>, keys: seq<string>)
    ensures counts == CountMap(KeysOf(arr))
    ensures keys == Keys(KeysOf(arr))
  {
    ghost var s := KeysOf(arr);
    counts, keys := map[], [];
    var i := 0;
    while i < |arr|
      invariant 0 <= i <= |arr|
      invariant counts == CountMap(s[..i])
      invariant keys == Keys(s[..i])
    {
      var item := ToKey(arr[i]);
      CountStep(s, i);
      if item in counts {
        counts := counts[item := counts[item] + 1];
      } else {
        counts := counts[item := 1];
        keys := keys + [item];
      }
      i := i + 1;
    }
    assert s[..|arr|] == s;
  }

  /** What counting one more item does to the counts and to the key order. */
  lemma CountStep(s: seq<string>, i: nat)
    requires i < |s|
    ensures s[i] in CountMap(s[..i]) <==> s[i] in Keys(s[..i])
    ensures CountMap(s[..i + 1]) ==
      var m := CountMap(s[..i]);
      if s[i] in m then m[s[i] := m[s[i]] + 1] else m[s[i] := 1]
    ensures Keys(s[..i + 1]) ==
      var d := Keys(s[..i]);
      if s[i] in d then d else d + [s[i]]
  {
    assert s[..i + 1][..i] == s[..i];
  }

  /** `Object.keys(counts).reduce((a, b) => counts[a] > counts[b] ? a : b)`,
      as the index of the key it returns. */
  method ReduceKeys(counts: map<string, nat>, keys: seq<string>, ghost s: seq<string>) returns (best: nat)
    requires |keys| > 0
    requires forall k :: k in keys ==> k in counts && counts[k] == Count(s, k)
    ensures best == ReduceIndex(s, keys)
  {
    best := 0;
    var j := 1;
    while j < |keys|
      invariant 1 <= j <= |keys|
      invariant best == ReduceIndex(s, keys[..j])
    {
      ReduceStep(s, keys, j);
      assert keys[best] in keys && keys[j] in keys;
      if !(counts[keys[best]] > counts[keys[j]]) {
        best := j;
      }
      j := j + 1;
    }
    assert keys[..j] == keys;
  }

  /** What one more step of the reduce does. */
  lemma ReduceStep(s: seq<string>, ks: seq<string>, j: nat)
    requires 0 < j < |ks|
    ensures ReduceIndex(s, ks[..j + 1]) ==
      var a := ReduceIndex(s, ks[..j]);
      if Count(s, ks[a]) > Count(s, ks[j]) then a else j
  {
    assert ks[..j + 1][..j] == ks[..j];
  }

  // ---------------------------------------------------------------------------
  // Properties of the vote
  // ---------------------------------------------------------------------------

  /** Keys are listed in order of first occurrence. */
  lemma {:induction false} KeysInFirstOccurrenceOrder(s: seq<string>, i: nat, j: nat)
    requires i < j < |Keys(s)|
    ensures FirstIndex(s, Keys(s)[i]) < FirstIndex(s, Keys(s)[j])
  {
    var init := s[..|s| - 1];
    var d := Keys(init);
    var x, y := Keys(s)[i], Keys(s)[j];
    if s[|s| - 1] in d {
      KeysInFirstOccurrenceOrder(init, i, j);
      FirstIndexOfPrefix(s, x);
      FirstIndexOfPrefix(s, y);
    } else if j < |d| {
      KeysInFirstOccurrenceOrder(init, i, j);
      FirstIndexOfPrefix(s, x);
      FirstIndexOfPrefix(s, y);
    } else {
      assert y == s[|s| - 1] && y !in init;
      FirstIndexOfPrefix(s, x);
    }
  }

  /** An element of the prefix keeps its first position when one more element
      is appended. */
  lemma FirstIndexOfPrefix(s: seq<string>, x: string)
    requires |s| > 0 && x in s[..|s| - 1]
    ensures FirstIndex(s, x) == FirstIndex(s[..|s| - 1], x)
  {
  }

  /** Among the keys of highest count, `getMostFrequent` returns the one that
      first occurs latest. */
  lemma MostFrequentTieBreak(s: seq<string>, x: string)
    requires x in s && MostFrequent(s).Some?
    requires Count(s, x) == Count(s, MostFrequent(s).value)
    ensures FirstIndex(s, x) <= FirstIndex(s, MostFrequent(s).value)
  {
    var ks := Keys(s);
    var i := ReduceIndex(s, ks);
    assert MostFrequent(s) == Some(ks[i]);
    assert x in ks;
    var j :| 0 <= j < |ks| && ks[j] == x;
    if j < i {
      KeysInFirstOccurrenceOrder(s, j, i);
    } else if j > i {
      assert false;
    }
  }

  /** A key that strictly outnumbers every other key is the one returned. */
  lemma StrictMajorityWins(s: seq<string>, v: string)
    requires v in s
    requires forall x :: x in s && x != v ==> Count(s, x) < Count(s, v)
    ensures MostFrequent(s) == Some(v)
  {
  }

  // ---------------------------------------------------------------------------
  // applyMajorityPrinciple
  // ---------------------------------------------------------------------------

  /** A field value that takes part in the vote: truthy and not exactly
      "UNKNOWN" (`filter(v => v && v !== 'UNKNOWN')`). */
  predicate Concrete(o: Option<Value>)
  {
    Defined(o) && o.value != Unknown
  }

  /** `bags.map(b => b[k]).filter(v => v && v !== 'UNKNOWN')`. */
  function Candidates(bags: seq<Obj>, k: string): (r: seq<Value>)
    ensures forall v :: v in r ==> Concrete(Some(v))
  {
    if bags == [] then []
    else
      var rest := Candidates(bags[..|bags| - 1], k);
      var f := Field(bags[|bags| - 1], k);
      if Concrete(f) then rest + [f.value] else rest
  }

  /** The candidates are exactly the concrete values of the batch. */
  lemma {:induction false} CandidatesCover(bags: seq<Obj>, k: string)
    ensures forall i :: 0 <= i < |bags| && Concrete(Field(bags[i], k)) ==> bags[i][k] in Candidates(bags, k)
    ensures forall v :: v in Candidates(bags, k) ==> exists i :: 0 <= i < |bags| && Field(bags[i], k) == Some(v)
  {
    if bags != [] {
      var init := bags[..|bags| - 1];
      CandidatesCover(init, k);
      forall i | 0 <= i < |bags| - 1
        ensures bags[i] == init[i]
      {
      }
    }
  }

  /** The majority value for field `k` of the batch, or `None`. */
  function Majority(bags: seq<Obj>, k: string): Option<string>
  {
    MostFrequent(KeysOf(Candidates(bags, k)))
  }

  /** `(bag[k] === 'UNKNOWN' && m) ? m : bag[k]`, written back into the bag. */
  function Fill(bag: Obj, k: string, m: Option<string>): (r: Obj)
    ensures forall j :: j != k ==> Field(r, j) == Field(bag, j)
    ensures Field(bag, k) != Some(Unknown) ==> Field(r, k) == Field(bag, k)
  {
    if Field(bag, k) == Some(Unknown) && m.Some? && m.value != "" then bag[k := Str(m.value)]
    else bag
  }

  /** `applyMajorityPrinciple(bags)`; `None` stands for a `null` batch. */
  function ApplyMajorityPrinciple(bags: Option<seq<Obj>>): (r: Option<seq<Obj>>)
    ensures bags.None? ==> r.None?
    ensures bags.Some? ==> r.Some? && |r.value| == |bags.value|
    ensures bags.Some? ==> forall i, j :: 0 <= i < |bags.value| && j != "version" && j != "packer" ==>
      Field(r.value[i], j) == Field(bags.value[i], j)
    ensures bags.Some? ==> forall i :: 0 <= i < |bags.value| && Field(bags.value[i], "version") != Some(Unknown) ==>
      Field(r.value[i], "version") == Field(bags.value[i], "version")
    ensures bags.Some? ==> forall i :: 0 <= i < |bags.value| && Field(bags.value[i], "packer") != Some(Unknown) ==>
      Field(r.value[i], "packer") == Field(bags.value[i], "packer")
  {
    if bags.None? || |bags.value| == 0 then bags
    else
      var b := bags.value;
      var version := Majority(b, "version");
      var packer := Majority(b, "packer");
      Some(seq(|b|, i requires 0 <= i < |b| => Fill(Fill(b[i], "version", version), "packer", packer)))
  }

  /** A majority value, when there is one, is the key of a truthy value and so
      never the empty string. */
  lemma MajorityNonEmpty(bags: seq<Obj>, k: string)
    requires Majority(bags, k).Some?
    ensures Majority(bags, k).value != ""
  {
    var c := Candidates(bags, k);
    var m := Majority(bags, k).value;
    var i :| 0 <= i < |c| && KeysOf(c)[i] == m;
    assert c[i] in c;
  }

  /** A majority exists exactly when some bag has a concrete value. */
  lemma MajorityExists(bags: seq<Obj>, k: string)
    ensures Majority(bags, k).Some? <==> exists i :: 0 <= i < |bags| && Concrete(Field(bags[i], k))
  {
    var c := Candidates(bags, k);
    CandidatesCover(bags, k);
    if c != [] {
      assert c[0] in c;
    }
  }

  /** An "UNKNOWN" of field `k` is replaced by the batch's majority value. */
  lemma UnknownFilled(bags: seq<Obj>, k: string, i: nat)
    requires k == "version" || k == "packer"
    requires i < |bags| && Field(bags[i], k) == Some(Unknown) && Majority(bags, k).Some?
    ensures Field(ApplyMajorityPrinciple(Some(bags)).value[i], k) == Some(Str(Majority(bags, k).value))
  {
    MajorityNonEmpty(bags, k);
  }

  /** Every "UNKNOWN" of field `k` becomes the majority value, which has a count
      at least that of every other concrete value; without any concrete value
      "UNKNOWN" stays. */
  lemma {:induction false} UnknownBecomesMajority(bags: seq<Obj>, k: string, i: nat)
    requires k == "version" || k == "packer"
    requires i < |bags| && Field(bags[i], k) == Some(Unknown)
    ensures var r := ApplyMajorityPrinciple(Some(bags)).value;
      && ((exists j :: 0 <= j < |bags| && Concrete(Field(bags[j], k))) ==>
            && Majority(bags, k).Some?
            && Field(r[i], k) == Some(Str(Majority(bags, k).value))
            && var s := KeysOf(Candidates(bags, k));
               forall x :: x in s ==> Count(s, x) <= Count(s, Majority(bags, k).value))
      && ((forall j :: 0 <= j < |bags| ==> !Concrete(Field(bags[j], k))) ==>
            Field(r[i], k) == Some(Unknown))
  {
    MajorityExists(bags, k);
    if Majority(bags, k).Some? {
      UnknownFilled(bags, k, i);
    } else {
      UnknownKept(bags, k, i);
    }
  }

  /** Without a majority value an "UNKNOWN" stays. */
  lemma UnknownKept(bags: seq<Obj>, k: string, i: nat)
    requires k == "version" || k == "packer"
    requires i < |bags| && Field(bags[i], k) == Some(Unknown) && Majority(bags, k).None?
    ensures Field(ApplyMajorityPrinciple(Some(bags)).value[i], k) == Some(Unknown)
  {
  }

  /** A batch whose versions read v1.9.0, UNKNOWN, v1.9.0 and v1.8.0, without
      packers. */
  function ScenarioBags(): seq<Obj>
  {
    [map["bagId" := Str("1"), "version" := Str("v1.9.0")],
     map["bagId" := Str("2"), "version" := Str("UNKNOWN")],
     map["bagId" := Str("3"), "version" := Str("v1.9.0")],
     map["bagId" := Str("4"), "version" := Str("v1.8.0")]]
  }

  lemma ScenarioCandidates()
    ensures Candidates(ScenarioBags(), "version") == [Str("v1.9.0"), Str("v1.9.0"), Str("v1.8.0")]
    ensures Candidates(ScenarioBags(), "packer") == []
  {
    var bags := ScenarioBags();
    assert Candidates(bags[..1], "version") == [Str("v1.9.0")];
    assert bags[..2][..1] == bags[..1];
    assert Candidates(bags[..2], "version") == [Str("v1.9.0")];
    assert bags[..3][..2] == bags[..2];
    assert Candidates(bags[..3], "version") == [Str("v1.9.0"), Str("v1.9.0")];
    assert bags[..3] == bags[..|bags| - 1];
    assert Candidates(bags[..1], "packer") == [];
    assert Candidates(bags[..2], "packer") == [];
    assert Candidates(bags[..3], "packer") == [];
  }

  lemma ScenarioMajority()
    ensures Majority(ScenarioBags(), "version") == Some("v1.9.0")
    ensures Majority(ScenarioBags(), "packer") == None
  {
    ScenarioCandidates();
    ScenarioKeys();
    ScenarioVote();
  }

  lemma ScenarioKeys()
    ensures KeysOf([Str("v1.9.0"), Str("v1.9.0"), Str("v1.8.0")]) == ["v1.9.0", "v1.9.0", "v1.8.0"]
  {
    var s := KeysOf([Str("v1.9.0"), Str("v1.9.0"), Str("v1.8.0")]);
    assert s[0] == "v1.9.0" && s[1] == "v1.9.0" && s[2] == "v1.8.0";
  }

  /** The vote among the keys v1.9.0, v1.9.0 and v1.8.0. */
  lemma ScenarioVote()
    ensures MostFrequent(["v1.9.0", "v1.9.0", "v1.8.0"]) == Some("v1.9.0")
  {
    var s := ["v1.9.0", "v1.9.0", "v1.8.0"];
    assert s[..2] == ["v1.9.0", "v1.9.0"] && s[..2][..1] == ["v1.9.0"];
    assert Count(s, "v1.9.0") == 2;
    assert Count(s, "v1.8.0") == 1;
    StrictMajorityWins(s, "v1.9.0");
  }

  /** In that batch the unknown version becomes v1.9.0 ... */
  lemma ScenarioUnknownFilled()
    ensures var r := ApplyMajorityPrinciple(Some(ScenarioBags())).value;
      |r| == 4 && Field(r[1], "version") == Some(Str("v1.9.0"))
  {
    var b := ScenarioBags();
    assert Field(b[1], "version") == Some(Unknown);
    ScenarioMajority();
    UnknownFilled(b, "version", 1);
  }

  /** ... and the other versions stay as they were. */
  lemma ScenarioOthersKept()
    ensures var r := ApplyMajorityPrinciple(Some(ScenarioBags())).value;
      && |r| == 4
      && Field(r[0], "version") == Some(Str("v1.9.0"))
      && Field(r[2], "version") == Some(Str("v1.9.0"))
      && Field(r[3], "version") == Some(Str("v1.8.0"))
  {
    var b := ScenarioBags();
    assert Field(b[0], "version") == Some(Str("v1.9.0"));
    assert Field(b[2], "version") == Some(Str("v1.9.0"));
    assert Field(b[3], "version") == Some(Str("v1.8.0"));
  }
}
