// Writing a document's chunks to the vector and the lexical index, with rollback and retry
// (groundwork_ingestion/indexes.py, pipeline.py, retry.py).
module DualIndex {
  import opened Chunker
  import opened Documents
  import opened Windowing
  import opened Wrappers

  datatype Key = Key(tenantID: string, chunkID: string)

  datatype Record = Record(payload: Chunk, vector: Option<seq<real>>)

  // The two indexes.
  datatype Store = Store(vector: map<Key, Record>, lexical: map<Key, Record>)

  function KeyOf(c: Chunk): Key {
    Key(c.tenantID, c.chunkID)
  }

  function RecordOf(c: Chunk, vector: Option<seq<real>>): Record {
    Record(c.(embedding := []), vector)
  }

  // How a call to an index ends. One that raises may have been applied all the same.
  datatype Fault = Fine | Raises(applied: bool)

  // The faults of one write, by position in the list of chunks.
  datatype Script = Script(vector: nat -> Fault, lexical: nat -> Fault)

  predicate Fails(sc: Script, i: nat) {
    sc.vector(i).Raises? || sc.lexical(i).Raises?
  }

  // ---- what a write does ----

  function PutVector(s: Store, c: Chunk): Store {
    s.(vector := s.vector[KeyOf(c) := RecordOf(c, Some(c.embedding))])
  }

  function PutLexical(s: Store, c: Chunk): Store {
    s.(lexical := s.lexical[KeyOf(c) := RecordOf(c, None)])
  }

  // The first `n` chunks in both indexes.
  function PutAll(s: Store, cs: seq<Chunk>, n: nat): Store
    requires n <= |cs|
  {
    if n == 0 then s else PutLexical(PutVector(PutAll(s, cs, n - 1), cs[n - 1]), cs[n - 1])
  }

  function Erase(s: Store, keys: set<Key>): Store {
    Store(s.vector - keys, s.lexical - keys)
  }

  function KeysOf(cs: seq<Chunk>, n: nat): (keys: set<Key>)
    requires n <= |cs|
    ensures forall i | 0 <= i < n :: KeyOf(cs[i]) in keys
  {
    if n == 0 then {} else KeysOf(cs, n - 1) + {KeyOf(cs[n - 1])}
  }

  function StopAt(cs: seq<Chunk>, sc: Script, i: nat): (k: nat)
    requires i <= |cs|
    ensures i <= k <= |cs| && (k < |cs| ==> Fails(sc, k))
    ensures forall j | i <= j < k :: !Fails(sc, j)
    decreases |cs| - i
  {
    if i == |cs| || Fails(sc, i) then i else StopAt(cs, sc, i + 1)
  }

  predicate Succeeds(cs: seq<Chunk>, sc: Script) {
    StopAt(cs, sc, 0) == |cs|
  }

  lemma SucceedsIff(cs: seq<Chunk>, sc: Script)
    ensures Succeeds(cs, sc) <==> forall i: nat | i < |cs| :: sc.vector(i).Fine? && sc.lexical(i).Fine?
  {
    var k := StopAt(cs, sc, 0);
    if Succeeds(cs, sc) {
      forall i: nat | i < |cs| ensures sc.vector(i).Fine? && sc.lexical(i).Fine? {
        assert !Fails(sc, i);
      }
    }
  }

  // The first `n` attempts all fail.
  predicate AllFail(cs: seq<Chunk>, scripts: nat -> Script, n: nat) {
    forall i: nat | i < n :: !Succeeds(cs, scripts(i))
  }

  // The chunk being written when the error strikes.
  function Interrupted(s: Store, c: Chunk, v: Fault, x: Fault): Store {
    if v.Raises? then (if v.applied then PutVector(s, c) else s)
    else if x.Raises? && !x.applied then PutVector(s, c)
    else PutLexical(PutVector(s, c), c)
  }

  // A failed write: what was written before the error is erased again, the interrupted chunk is not.
  function Failed(s: Store, cs: seq<Chunk>, sc: Script): Store
    requires !Succeeds(cs, sc)
  {
    var k := StopAt(cs, sc, 0);
    Erase(Interrupted(PutAll(s, cs, k), cs[k], sc.vector(k), sc.lexical(k)), KeysOf(cs, k))
  }

  function AfterFailures(s: Store, cs: seq<Chunk>, scripts: nat -> Script, n: nat): Store
    requires AllFail(cs, scripts, n)
  {
    if n == 0 then s else Failed(AfterFailures(s, cs, scripts, n - 1), cs, scripts(n - 1))
  }

  lemma OneMoreFails(s: Store, cs: seq<Chunk>, scripts: nat -> Script, n: nat)
    requires AllFail(cs, scripts, n) && !Succeeds(cs, scripts(n))
    ensures AllFail(cs, scripts, n + 1)
    ensures AfterFailures(s, cs, scripts, n + 1) == Failed(AfterFailures(s, cs, scripts, n), cs, scripts(n))
  {
  }

  // ---- erasing and writing ----

  lemma EraseMore(s: Store, t: Store, fewer: set<Key>, more: set<Key>)
    requires Erase(s, fewer) == Erase(t, fewer) && fewer <= more
    ensures Erase(s, more) == Erase(t, more)
  {
    assert Erase(s, more) == Erase(Erase(s, fewer), more);
    assert Erase(t, more) == Erase(Erase(t, fewer), more);
  }

  lemma ErasePut(s: Store, c: Chunk, keys: set<Key>)
    requires KeyOf(c) in keys
    ensures Erase(PutVector(s, c), keys) == Erase(s, keys)
    ensures Erase(PutLexical(s, c), keys) == Erase(s, keys)
  {
  }

  lemma EraseInterrupted(s: Store, c: Chunk, v: Fault, x: Fault, keys: set<Key>)
    requires KeyOf(c) in keys
    ensures Erase(Interrupted(s, c, v, x), keys) == Erase(s, keys)
  {
    ErasePut(s, c, keys);
    ErasePut(PutVector(s, c), c, keys);
  }

  lemma {:induction false} EraseAll(s: Store, cs: seq<Chunk>, n: nat, keys: set<Key>)
    requires n <= |cs| && KeysOf(cs, n) <= keys
    ensures Erase(PutAll(s, cs, n), keys) == Erase(s, keys)
  {
    if n > 0 {
      EraseAll(s, cs, n - 1, keys);
      EraseInterrupted(PutAll(s, cs, n - 1), cs[n - 1], Fine, Fine, keys);
    }
  }

  lemma {:induction false} KeysGrow(cs: seq<Chunk>, m: nat, n: nat)
    requires m <= n <= |cs|
    ensures KeysOf(cs, m) <= KeysOf(cs, n)
  {
    if m < n {
      KeysGrow(cs, m, n - 1);
    }
  }

  // A failed write touches no key but the chunks' own.
  lemma FailedStaysInside(s: Store, cs: seq<Chunk>, sc: Script)
    requires !Succeeds(cs, sc)
    ensures Erase(Failed(s, cs, sc), KeysOf(cs, |cs|)) == Erase(s, KeysOf(cs, |cs|))
  {
    var k, keys := StopAt(cs, sc, 0), KeysOf(cs, |cs|);
    var t := Interrupted(PutAll(s, cs, k), cs[k], sc.vector(k), sc.lexical(k));
    KeysGrow(cs, k, |cs|);
    EraseMore(Erase(t, KeysOf(cs, k)), t, KeysOf(cs, k), keys);
    EraseInterrupted(PutAll(s, cs, k), cs[k], sc.vector(k), sc.lexical(k), keys);
    EraseAll(s, cs, k, keys);
  }

  lemma {:induction false} FailuresStayInside(s: Store, cs: seq<Chunk>, scripts: nat -> Script, n: nat)
    requires AllFail(cs, scripts, n)
    ensures Erase(AfterFailures(s, cs, scripts, n), KeysOf(cs, |cs|)) == Erase(s, KeysOf(cs, |cs|))
  {
    if n > 0 {
      FailuresStayInside(s, cs, scripts, n - 1);
      FailedStaysInside(AfterFailures(s, cs, scripts, n - 1), cs, scripts(n - 1));
    }
  }

  lemma PutHeals(s: Store, t: Store, c: Chunk, keys: set<Key>)
    requires Erase(s, keys) == Erase(t, keys)
    ensures Erase(PutLexical(PutVector(s, c), c), keys - {KeyOf(c)})
      == Erase(PutLexical(PutVector(t, c), c), keys - {KeyOf(c)})
  {
    HealMap(s.vector, t.vector, KeyOf(c), RecordOf(c, Some(c.embedding)), keys);
    HealMap(s.lexical, t.lexical, KeyOf(c), RecordOf(c, None), keys);
  }

  lemma HealMap(m: map<Key, Record>, n: map<Key, Record>, k: Key, r: Record, keys: set<Key>)
    requires m - keys == n - keys
    ensures m[k := r] - (keys - {k}) == n[k := r] - (keys - {k})
  {
    var x, y := m[k := r] - (keys - {k}), n[k := r] - (keys - {k});
    forall j ensures j in x <==> j in y {
      assert j in m && j !in keys <==> j in m - keys;
      assert j in n && j !in keys <==> j in n - keys;
    }
    forall j | j in x ensures x[j] == y[j] {
      if j != k {
        assert (m - keys)[j] == (n - keys)[j];
      }
    }
  }

  lemma {:induction false} PutAllHeals(s: Store, t: Store, cs: seq<Chunk>, n: nat, keys: set<Key>)
    requires n <= |cs| && Erase(s, keys) == Erase(t, keys)
    ensures Erase(PutAll(s, cs, n), keys - KeysOf(cs, n)) == Erase(PutAll(t, cs, n), keys - KeysOf(cs, n))
  {
    if n == 0 {
      assert keys - {} == keys;
    } else {
      PutAllHeals(s, t, cs, n - 1, keys);
      PutHeals(PutAll(s, cs, n - 1), PutAll(t, cs, n - 1), cs[n - 1], keys - KeysOf(cs, n - 1));
      assert keys - KeysOf(cs, n) == keys - KeysOf(cs, n - 1) - {KeyOf(cs[n - 1])};
    }
  }

  // A write that succeeds after any failures leaves what it would have left as the first.
  lemma SuccessForgetsFailures(s: Store, cs: seq<Chunk>, scripts: nat -> Script, n: nat)
    requires AllFail(cs, scripts, n)
    ensures PutAll(AfterFailures(s, cs, scripts, n), cs, |cs|) == PutAll(s, cs, |cs|)
  {
    var keys, t := KeysOf(cs, |cs|), AfterFailures(s, cs, scripts, n);
    FailuresStayInside(s, cs, scripts, n);
    PutAllHeals(t, s, cs, |cs|, keys);
    assert keys - keys == {};
    EraseNothing(PutAll(t, cs, |cs|));
    EraseNothing(PutAll(s, cs, |cs|));
  }

  lemma EraseNothing(s: Store)
    ensures Erase(s, {}) == s
  {
    assert s.vector - {} == s.vector && s.lexical - {} == s.lexical;
  }

  ghost predicate Unused(s: Store, keys: set<Key>) {
    keys !! s.vector.Keys && keys !! s.lexical.Keys
  }

  lemma EraseIff(s: Store, keys: set<Key>)
    ensures Erase(s, keys) == s <==> Unused(s, keys)
  {
    MinusIff(s.vector, keys);
    MinusIff(s.lexical, keys);
  }

  lemma MinusIff(m: map<Key, Record>, keys: set<Key>)
    ensures m - keys == m <==> keys !! m.Keys
  {
    if keys !! m.Keys {
      assert m - keys == m;
    } else {
      var k :| k in keys && k in m.Keys;
      assert k !in m - keys;
    }
  }

  // Rolling a complete write back restores both indexes exactly when no chunk's key was in use
  // before: the record a key held earlier is not brought back.
  lemma RollbackRestoresIff(s: Store, cs: seq<Chunk>)
    ensures Erase(PutAll(s, cs, |cs|), KeysOf(cs, |cs|)) == s <==> Unused(s, KeysOf(cs, |cs|))
  {
    EraseAll(s, cs, |cs|, KeysOf(cs, |cs|));
    EraseIff(s, KeysOf(cs, |cs|));
  }

  // ---- when every attempt fails ----

  // Which index the interrupted chunk reaches.
  predicate VectorTakes(sc: Script, k: nat) {
    sc.vector(k).Fine? || sc.vector(k).applied
  }

  predicate LexicalTakes(sc: Script, k: nat) {
    sc.vector(k).Fine? && (sc.lexical(k).Fine? || sc.lexical(k).applied)
  }

  // What a failed write leaves of a key's record: nothing touched, erased, or the interrupted chunk's.
  datatype Fate = Untouched | Gone | Left(record: Record)

  function FateIn(cs: seq<Chunk>, k: nat, takes: bool, r: Record, key: Key): Fate
    requires k < |cs|
  {
    if key in KeysOf(cs, k) then Gone else if takes && key == KeyOf(cs[k]) then Left(r) else Untouched
  }

  function VectorFateIn(cs: seq<Chunk>, sc: Script, key: Key): Fate
    requires !Succeeds(cs, sc)
  {
    var k := StopAt(cs, sc, 0);
    FateIn(cs, k, VectorTakes(sc, k), RecordOf(cs[k], Some(cs[k].embedding)), key)
  }

  function LexicalFateIn(cs: seq<Chunk>, sc: Script, key: Key): Fate
    requires !Succeeds(cs, sc)
  {
    var k := StopAt(cs, sc, 0);
    FateIn(cs, k, LexicalTakes(sc, k), RecordOf(cs[k], None), key)
  }

  function Over(earlier: Fate, later: Fate): Fate {
    if later.Untouched? then earlier else later
  }

  // After `n` failed attempts the last one that touched the key decides.
  function VectorFate(cs: seq<Chunk>, scripts: nat -> Script, n: nat, key: Key): Fate
    requires AllFail(cs, scripts, n)
  {
    if n == 0 then Untouched
    else
      assert !Succeeds(cs, scripts(n - 1));
      Over(VectorFate(cs, scripts, n - 1, key), VectorFateIn(cs, scripts(n - 1), key))
  }

  function LexicalFate(cs: seq<Chunk>, scripts: nat -> Script, n: nat, key: Key): Fate
    requires AllFail(cs, scripts, n)
  {
    if n == 0 then Untouched
    else
      assert !Succeeds(cs, scripts(n - 1));
      Over(LexicalFate(cs, scripts, n - 1, key), LexicalFateIn(cs, scripts(n - 1), key))
  }

  // `t` shows at `key` what `fate` makes of `m`.
  ghost predicate Shows(m: map<Key, Record>, t: map<Key, Record>, fate: Fate, key: Key) {
    match fate
    case Untouched => (key in t <==> key in m) && (key in m ==> t[key] == m[key])
    case Gone => key !in t
    case Left(r) => key in t && t[key] == r
  }

  lemma ShowsOver(m: map<Key, Record>, mid: map<Key, Record>, t: map<Key, Record>, earlier: Fate, later: Fate, key: Key)
    requires Shows(m, mid, earlier, key) && Shows(mid, t, later, key)
    ensures Shows(m, t, Over(earlier, later), key)
  {
  }

  // One more failed write, key by key.
  lemma FailedShows(s: Store, cs: seq<Chunk>, sc: Script, key: Key)
    requires !Succeeds(cs, sc)
    ensures var t := Failed(s, cs, sc);
      && Shows(s.vector, t.vector, VectorFateIn(cs, sc, key), key)
      && Shows(s.lexical, t.lexical, LexicalFateIn(cs, sc, key), key)
  {
    var k := StopAt(cs, sc, 0);
    FailedIsInterruption(s, cs, sc);
    InterruptedShows(s, cs[k], sc.vector(k), sc.lexical(k), KeysOf(cs, k), key);
  }

  lemma InterruptedShows(s: Store, c: Chunk, v: Fault, x: Fault, gone: set<Key>, key: Key)
    requires v.Raises? || x.Raises?
    ensures var t := Erase(Interrupted(s, c, v, x), gone);
      && Shows(s.vector, t.vector,
               if key in gone then Gone
               else if (v.Fine? || v.applied) && key == KeyOf(c) then Left(RecordOf(c, Some(c.embedding)))
               else Untouched, key)
      && Shows(s.lexical, t.lexical,
               if key in gone then Gone
               else if v.Fine? && (x.Fine? || x.applied) && key == KeyOf(c) then Left(RecordOf(c, None))
               else Untouched, key)
  {
  }

  // A failed write is its interruption over the original store, less what was written before.
  lemma FailedIsInterruption(s: Store, cs: seq<Chunk>, sc: Script)
    requires !Succeeds(cs, sc)
    ensures var k := StopAt(cs, sc, 0);
      Failed(s, cs, sc) == Erase(Interrupted(s, cs[k], sc.vector(k), sc.lexical(k)), KeysOf(cs, k))
  {
    var k := StopAt(cs, sc, 0);
    EraseAll(s, cs, k, KeysOf(cs, k));
    SameInterruption(PutAll(s, cs, k), s, cs[k], sc.vector(k), sc.lexical(k), KeysOf(cs, k));
  }

  lemma SameInterruption(s: Store, t: Store, c: Chunk, v: Fault, x: Fault, keys: set<Key>)
    requires Erase(s, keys) == Erase(t, keys)
    ensures Erase(Interrupted(s, c, v, x), keys) == Erase(Interrupted(t, c, v, x), keys)
  {
    SameAfterPut(s.vector, t.vector, KeyOf(c), RecordOf(c, Some(c.embedding)), keys);
    SameAfterPut(s.lexical, t.lexical, KeyOf(c), RecordOf(c, None), keys);
  }

  lemma SameAfterPut(m: map<Key, Record>, n: map<Key, Record>, k: Key, r: Record, keys: set<Key>)
    requires m - keys == n - keys
    ensures m[k := r] - keys == n[k := r] - keys
  {
    HealMap(m, n, k, r, keys);
    assert m[k := r] - keys == (m[k := r] - (keys - {k})) - keys;
    assert n[k := r] - keys == (n[k := r] - (keys - {k})) - keys;
  }

  // Whatever the indexes held before and whatever the faults were: after every attempt failed, each
  // index shows at each key exactly what the last attempt that touched it made of it.
  lemma {:induction false} FailuresLeave(s: Store, cs: seq<Chunk>, scripts: nat -> Script, n: nat, key: Key)
    requires AllFail(cs, scripts, n)
    ensures Shows(s.vector, AfterFailures(s, cs, scripts, n).vector, VectorFate(cs, scripts, n, key), key)
    ensures Shows(s.lexical, AfterFailures(s, cs, scripts, n).lexical, LexicalFate(cs, scripts, n, key), key)
  {
    if n > 0 {
      FailuresLeave(s, cs, scripts, n - 1, key);
      assert !Succeeds(cs, scripts(n - 1));
      var before := AfterFailures(s, cs, scripts, n - 1);
      var after := Failed(before, cs, scripts(n - 1));
      FailedShows(before, cs, scripts(n - 1), key);
      ShowsOver(s.vector, before.vector, after.vector, VectorFate(cs, scripts, n - 1, key),
        VectorFateIn(cs, scripts(n - 1), key), key);
      ShowsOver(s.lexical, before.lexical, after.lexical, LexicalFate(cs, scripts, n - 1, key),
        LexicalFateIn(cs, scripts(n - 1), key), key);
    }
  }

  // A key's fate in the two indexes: erased together, never left in the lexical one alone.
  lemma {:induction false} FatesAgree(cs: seq<Chunk>, scripts: nat -> Script, n: nat, key: Key)
    requires AllFail(cs, scripts, n)
    ensures VectorFate(cs, scripts, n, key).Untouched? ==> LexicalFate(cs, scripts, n, key).Untouched?
    ensures VectorFate(cs, scripts, n, key).Gone? ==> LexicalFate(cs, scripts, n, key).Gone?
    ensures LexicalFate(cs, scripts, n, key).Left? ==> VectorFate(cs, scripts, n, key).Left?
  {
    if n > 0 {
      FatesAgree(cs, scripts, n - 1, key);
    }
  }

  // A key left in the vector index without a lexical counterpart of the same attempt.
  predicate Leftover(cs: seq<Chunk>, scripts: nat -> Script, n: nat, key: Key)
    requires AllFail(cs, scripts, n)
  {
    VectorFate(cs, scripts, n, key).Left? && !LexicalFate(cs, scripts, n, key).Left?
  }

  // The vector index exceeds the lexical one exactly by what it exceeded it by before at untouched
  // keys, and by the leftover chunks the lexical index does not hold from earlier.
  lemma SurplusIff(s: Store, cs: seq<Chunk>, scripts: nat -> Script, n: nat, key: Key)
    requires AllFail(cs, scripts, n)
    ensures var t := AfterFailures(s, cs, scripts, n);
      key in t.vector && key !in t.lexical <==>
        || (VectorFate(cs, scripts, n, key).Untouched? && key in s.vector && key !in s.lexical)
        || (Leftover(cs, scripts, n, key) && (LexicalFate(cs, scripts, n, key).Gone? || key !in s.lexical))
  {
    FailuresLeave(s, cs, scripts, n, key);
    FatesAgree(cs, scripts, n, key);
  }

  // A record in use before is lost from both indexes exactly when the last attempt to touch its key
  // had got past its chunk.
  lemma RecordLostIff(s: Store, cs: seq<Chunk>, scripts: nat -> Script, n: nat, key: Key)
    requires AllFail(cs, scripts, n) && key in s.vector && key in s.lexical
    ensures var t := AfterFailures(s, cs, scripts, n);
      key !in t.vector && key !in t.lexical <==> VectorFate(cs, scripts, n, key).Gone?
  {
    FailuresLeave(s, cs, scripts, n, key);
    FatesAgree(cs, scripts, n, key);
  }

  // A leftover chunk is one at which some attempt was interrupted after the vector index took it and
  // before the lexical one did.
  lemma {:induction false} LeftoverWasInterrupted(cs: seq<Chunk>, scripts: nat -> Script, n: nat, key: Key)
    requires AllFail(cs, scripts, n) && Leftover(cs, scripts, n, key)
    ensures exists i: nat | i < n ::
      var k := StopAt(cs, scripts(i), 0);
      k < |cs| && KeyOf(cs[k]) == key && VectorTakes(scripts(i), k) && !LexicalTakes(scripts(i), k)
  {
    var sc := scripts(n - 1);
    assert !Succeeds(cs, sc);
    var k := StopAt(cs, sc, 0);
    if !(KeyOf(cs[k]) == key && VectorTakes(sc, k) && key !in KeysOf(cs, k)) {
      FatesAgree(cs, scripts, n - 1, key);
      LeftoverWasInterrupted(cs, scripts, n - 1, key);
    }
  }

  // What a fate leaves as it was.
  ghost predicate Restores(m: map<Key, Record>, fate: Fate, key: Key) {
    match fate
    case Untouched => true
    case Gone => key !in m
    case Left(r) => key in m && m[key] == r
  }

  // Failing for good restores both indexes exactly when each key, in each index, was untouched, or
  // erased where it was not in use, or left with the very record it had.
  lemma FailureRestoresIff(s: Store, cs: seq<Chunk>, scripts: nat -> Script, n: nat)
    requires AllFail(cs, scripts, n)
    ensures AfterFailures(s, cs, scripts, n) == s <==> forall key :: RestoresBoth(s, cs, scripts, n, key)
  {
    var t := AfterFailures(s, cs, scripts, n);
    forall key ensures SameAt(s, t, key) <==> RestoresBoth(s, cs, scripts, n, key) {
      FailuresLeave(s, cs, scripts, n, key);
    }
    if forall key :: RestoresBoth(s, cs, scripts, n, key) {
      forall key ensures SameAt(s, t, key) {
        assert RestoresBoth(s, cs, scripts, n, key);
      }
      SameStore(s, t);
    } else if t == s {
      var key :| !RestoresBoth(s, cs, scripts, n, key);
      assert SameAt(s, t, key);
      assert false;
    }
  }

  ghost predicate RestoresBoth(s: Store, cs: seq<Chunk>, scripts: nat -> Script, n: nat, key: Key)
    requires AllFail(cs, scripts, n)
  {
    Restores(s.vector, VectorFate(cs, scripts, n, key), key)
      && Restores(s.lexical, LexicalFate(cs, scripts, n, key), key)
  }

  ghost predicate SameAt(s: Store, t: Store, key: Key) {
    && (key in s.vector <==> key in t.vector) && (key in s.vector ==> s.vector[key] == t.vector[key])
    && (key in s.lexical <==> key in t.lexical) && (key in s.lexical ==> s.lexical[key] == t.lexical[key])
  }

  lemma SameStore(s: Store, t: Store)
    requires forall key :: SameAt(s, t, key)
    ensures s == t
  {
    assert forall key :: key in s.vector ==> SameAt(s, t, key);
    assert forall key :: key in t.vector ==> SameAt(s, t, key);
    assert forall key :: key in s.lexical ==> SameAt(s, t, key);
    assert forall key :: key in t.lexical ==> SameAt(s, t, key);
    assert s.vector == t.vector && s.lexical == t.lexical;
  }

  // With chunks of distinct keys, a last attempt whose lexical upsert fails without effect leaves its
  // chunk in the vector index; if the key was not in use, nothing is restored.
  lemma LastLexicalFailureStays(s: Store, cs: seq<Chunk>, scripts: nat -> Script, n: nat)
    requires n > 0 && AllFail(cs, scripts, n) && Distinct(cs)
    requires scripts(n - 1).vector(StopAt(cs, scripts(n - 1), 0)).Fine?
    requires scripts(n - 1).lexical(StopAt(cs, scripts(n - 1), 0)) == Raises(false)
    ensures var c, t := cs[StopAt(cs, scripts(n - 1), 0)], AfterFailures(s, cs, scripts, n);
      && KeyOf(c) in t.vector && t.vector[KeyOf(c)] == RecordOf(c, Some(c.embedding))
      && (KeyOf(c) !in s.vector ==> t != s)
  {
    assert !Succeeds(cs, scripts(n - 1));
    var k := StopAt(cs, scripts(n - 1), 0);
    NextKeyIsNew(cs, k);
    FailuresLeave(s, cs, scripts, n, KeyOf(cs[k]));
  }

  ghost predicate Distinct(cs: seq<Chunk>) {
    forall i, j | 0 <= i < j < |cs| :: KeyOf(cs[i]) != KeyOf(cs[j])
  }

  lemma {:induction false} KeysAreEarlier(cs: seq<Chunk>, n: nat, key: Key)
    requires n <= |cs| && key in KeysOf(cs, n)
    ensures exists i | 0 <= i < n :: KeyOf(cs[i]) == key
  {
    if key != KeyOf(cs[n - 1]) {
      KeysAreEarlier(cs, n - 1, key);
    }
  }

  lemma NextKeyIsNew(cs: seq<Chunk>, k: nat)
    requires Distinct(cs) && k < |cs|
    ensures KeyOf(cs[k]) !in KeysOf(cs, k)
  {
    if KeyOf(cs[k]) in KeysOf(cs, k) {
      KeysAreEarlier(cs, k, KeyOf(cs[k]));
    }
  }

  // ---- the classes ----

  class InMemoryIndex {
    var records: map<Key, Record>

    constructor ()
      ensures records == map[]
    {
      records := map[];
    }

    method Upsert(c: Chunk, vector: Option<seq<real>>, fault: Fault) returns (raised: bool)
      modifies this
      ensures raised == fault.Raises?
      ensures records == if fault.Fine? || fault.applied then old(records)[KeyOf(c) := RecordOf(c, vector)]
        else old(records)
    {
      if fault.Fine? || fault.applied {
        records := records[KeyOf(c) := RecordOf(c, vector)];
      }
      return fault.Raises?;
    }

    method Delete(key: Key)
      modifies this
      ensures records == old(records) - {key}
    {
      records := records - {key};
    }
  }

  class AtomicDualIndexWriter {
    const vector: InMemoryIndex
    const lexical: InMemoryIndex
    var written: seq<Chunk>

    ghost predicate Valid() {
      vector != lexical
    }

    ghost function View(): Store
      reads vector, lexical
    {
      Store(vector.records, lexical.records)
    }

    constructor (vector: InMemoryIndex, lexical: InMemoryIndex)
      requires vector != lexical
      ensures Valid() && written == [] && this.vector == vector && this.lexical == lexical
    {
      this.vector, this.lexical, written := vector, lexical, [];
    }

    method Rollback()
      requires Valid()
      modifies this, vector, lexical
      ensures written == [] && View() == Erase(old(View()), KeysOf(old(written), |old(written)|))
    {
      ghost var s, n := View(), |written|;
      var i := |written|;
      ghost var gone: set<Key> := {};
      EraseNothing(s);
      while i > 0
        invariant 0 <= i <= n && written == old(written)
        invariant gone + KeysOf(written, i) == KeysOf(written, n) && View() == Erase(s, gone)
      {
        i := i - 1;
        ghost var before := View();
        var key := KeyOf(written[i]);
        vector.Delete(key);
        lexical.Delete(key);
        EraseOneMore(s, gone, key);
        gone := gone + {key};
      }
      assert gone == KeysOf(written, n);
      written := [];
    }

    method Write(cs: seq<Chunk>, sc: Script) returns (ok: bool)
      requires Valid() && written == []
      modifies this, vector, lexical
      ensures ok == Succeeds(cs, sc)
      ensures ok <==> forall i: nat | i < |cs| :: sc.vector(i).Fine? && sc.lexical(i).Fine?
      ensures ok ==> written == cs && View() == PutAll(old(View()), cs, |cs|)
      ensures !ok ==> written == [] && View() == Failed(old(View()), cs, sc)
    {
      ghost var s := View();
      SucceedsIff(cs, sc);
      var i := 0;
      while i < |cs|
        invariant 0 <= i <= |cs| && StopAt(cs, sc, 0) == StopAt(cs, sc, i)
        invariant written == cs[..i] && View() == PutAll(s, cs, i)
      {
        var raised := vector.Upsert(cs[i], Some(cs[i].embedding), sc.vector(i));
        if !raised {
          raised := lexical.Upsert(cs[i], None, sc.lexical(i));
        }
        if raised {
          assert StopAt(cs, sc, 0) == i;
          assert View() == Interrupted(PutAll(s, cs, i), cs[i], sc.vector(i), sc.lexical(i));
          KeysOfPrefix(cs, i, i);
          Rollback();
          return false;
        }
        written := written + [cs[i]];
        i := i + 1;
      }
      return true;
    }

    // retry_with_backoff around Write.
    method WriteWithRetry(cs: seq<Chunk>, scripts: nat -> Script, attempts: nat) returns (ok: bool)
      requires Valid() && written == []
      modifies this, vector, lexical
      ensures ok <==> !AllFail(cs, scripts, attempts)
      ensures ok ==> written == cs && View() == PutAll(old(View()), cs, |cs|)
      ensures !ok ==> written == [] && View() == AfterFailures(old(View()), cs, scripts, attempts)
    {
      ghost var s := View();
      for attempt := 0 to attempts
        invariant written == [] && AllFail(cs, scripts, attempt)
        invariant View() == AfterFailures(s, cs, scripts, attempt)
      {
        ok := Write(cs, scripts(attempt));
        if ok {
          SuccessForgetsFailures(s, cs, scripts, attempt);
          return;
        }
        OneMoreFails(s, cs, scripts, attempt);
      }
      return false;
    }
  }

  lemma EraseOneMore(s: Store, gone: set<Key>, key: Key)
    ensures Erase(Erase(s, gone), {key}) == Erase(s, gone + {key})
  {
    assert s.vector - gone - {key} == s.vector - (gone + {key});
    assert s.lexical - gone - {key} == s.lexical - (gone + {key});
  }

  lemma {:induction false} KeysOfPrefix(cs: seq<Chunk>, n: nat, i: nat)
    requires i <= n <= |cs|
    ensures KeysOf(cs[..n], i) == KeysOf(cs, i)
  {
    if i > 0 {
      KeysOfPrefix(cs, n, i - 1);
    }
  }

  // ---- one ingestion ----

  // What the outside world does during one ingestion: which attempts of each retried call succeed,
  // what the embedder returns, and the freshness of each chunk as it is cut.
  datatype World = World(
    regionAllowed: bool, chunking: nat -> bool, embedding: nat -> bool, vectors: seq<seq<real>>, freshness: nat -> real,
    scripts: nat -> Script, hasAuthorizer: bool, grants: nat -> bool)

  datatype Failure = ResidencyViolation | ChunkingFailed | EmbeddingFailed | VectorsMismatch | WriteFailed | GrantFailed

  datatype IngestionResult = IngestionResult(
    tenantID: string, documentID: string, region: string, chunksWritten: nat, minFreshness: real)

  const ATTEMPTS: nat := 4

  function Embedded(cs: seq<Chunk>, vectors: seq<seq<real>>): (out: seq<Chunk>)
    requires |cs| == |vectors|
    ensures |out| == |cs| && forall i | 0 <= i < |cs| :: out[i] == cs[i].(embedding := vectors[i])
  {
    seq(|cs|, i requires 0 <= i < |cs| => cs[i].(embedding := vectors[i]))
  }

  predicate GetsThrough(succeeds: nat -> bool, attempts: nat) {
    exists n: nat | n < attempts :: succeeds(n)
  }

  // retry_with_backoff around a call whose outcome is all that matters.
  method RetryWithBackoff(succeeds: nat -> bool, attempts: nat) returns (ok: bool)
    ensures ok == GetsThrough(succeeds, attempts)
  {
    for attempt := 0 to attempts
      invariant forall i: nat | i < attempt :: !succeeds(i)
    {
      if succeeds(attempt) {
        return true;
      }
    }
    return false;
  }

  // The least of the first `n` scores, 0 when there is none.
  ghost predicate IsLeast(m: real, scores: nat -> real, n: nat) {
    && (n == 0 ==> m == 0.0)
    && (forall i: nat | i < n :: m <= scores(i))
    && (n > 0 ==> exists i: nat | i < n :: m == scores(i))
  }

  method MinFreshness(scores: nat -> real, n: nat) returns (m: real)
    ensures IsLeast(m, scores, n)
  {
    m := 0.0;
    for i := 0 to n
      invariant IsLeast(m, scores, i)
    {
      if i == 0 || scores(i) < m {
        m := scores(i);
      }
    }
  }

  // Why an ingestion stops before anything is written.
  function Gate(d: Document, cfg: Settings, h: Hashing, w: World): Option<Failure> {
    if !w.regionAllowed then Some(ResidencyViolation)
    else if !GetsThrough(w.chunking, 4) then Some(ChunkingFailed)
    else if !GetsThrough(w.embedding, 4) then Some(EmbeddingFailed)
    else if |w.vectors| != |DocumentChunks(d, cfg, h)| then Some(VectorsMismatch)
    else None
  }

  // What both indexes hold after an ingestion of `cs` that got as far as writing.
  ghost predicate Ends(s: Store, t: Store, cs: seq<Chunk>, r: Result<IngestionResult, Failure>, d: Document, w: World) {
    if AllFail(cs, w.scripts, 4) then
      r == Err(WriteFailed) && t == AfterFailures(s, cs, w.scripts, 4)
    else if w.hasAuthorizer && !GetsThrough(w.grants, 4) then
      r == Err(GrantFailed) && t == Erase(s, KeysOf(cs, |cs|))
    else
      && r.Ok? && r.value == IngestionResult(d.tenantID, d.documentID, d.region, |cs|, r.value.minFreshness)
      && IsLeast(r.value.minFreshness, w.freshness, |cs|)
      && t == PutAll(s, cs, |cs|)
  }

  method Ingest(d: Document, cfg: Settings, h: Hashing, vector: InMemoryIndex, lexical: InMemoryIndex, w: World)
    returns (r: Result<IngestionResult, Failure>)
    requires vector != lexical && CollisionFree(h)
    modifies vector, lexical
    ensures Gate(d, cfg, h, w).Some? ==> r == Err(Gate(d, cfg, h, w).value)
    ensures Gate(d, cfg, h, w).Some?
      ==> vector.records == old(vector.records) && lexical.records == old(lexical.records)
    ensures Gate(d, cfg, h, w).None? ==>
      Ends(old(Store(vector.records, lexical.records)), Store(vector.records, lexical.records),
           Embedded(DocumentChunks(d, cfg, h), w.vectors), r, d, w)
  {
    if !w.regionAllowed {
      return Err(ResidencyViolation);
    }
    var ok := RetryWithBackoff(w.chunking, ATTEMPTS);
    if !ok {
      return Err(ChunkingFailed);
    }
    var chunks := ChunkDocument(d, cfg, h);
    DedupeRemovesNothing(d, cfg, h);
    ok := RetryWithBackoff(w.embedding, ATTEMPTS);
    if !ok {
      return Err(EmbeddingFailed);
    }
    if |w.vectors| != |chunks| {
      return Err(VectorsMismatch);
    }
    r := Publish(d, Embedded(chunks, w.vectors), vector, lexical, w);
  }

  // Write, grant, and roll back if the grant fails.
  method Publish(d: Document, cs: seq<Chunk>, vector: InMemoryIndex, lexical: InMemoryIndex, w: World)
    returns (r: Result<IngestionResult, Failure>)
    requires vector != lexical
    modifies vector, lexical
    ensures Ends(old(Store(vector.records, lexical.records)), Store(vector.records, lexical.records), cs, r, d, w)
  {
    var writer := new AtomicDualIndexWriter(vector, lexical);
    ghost var s := writer.View();
    var ok := writer.WriteWithRetry(cs, w.scripts, ATTEMPTS);
    if !ok {
      return Err(WriteFailed);
    }
    if w.hasAuthorizer {
      ok := RetryWithBackoff(w.grants, ATTEMPTS);
      if !ok {
        writer.Rollback();
        EraseAll(s, cs, |cs|, KeysOf(cs, |cs|));
        return Err(GrantFailed);
      }
    }
    var least := MinFreshness(w.freshness, |cs|);
    return Ok(IngestionResult(d.tenantID, d.documentID, d.region, |cs|, least));
  }

  // ---- what an ingestion leaves ----

  lemma ChunksAreDistinct(d: Document, cfg: Settings, h: Hashing)
    requires CollisionFree(h)
    ensures DistinctIDs(DocumentChunks(d, cfg, h))
  {
    TextsAreNonEmpty(d, cfg);
    PlacesAreDistinct(d, TextsOf(d, cfg), h);
  }

  lemma EmbeddedAreDistinct(cs: seq<Chunk>, vectors: seq<seq<real>>)
    requires DistinctIDs(cs) && |vectors| == |cs|
    ensures Distinct(Embedded(cs, vectors))
  {
  }

  lemma KeysOfPut(s: Store, c: Chunk)
    ensures var t := PutLexical(PutVector(s, c), c);
      t.vector.Keys == s.vector.Keys + {KeyOf(c)} && t.lexical.Keys == s.lexical.Keys + {KeyOf(c)}
  {
  }

  lemma {:induction false} PutKeys(s: Store, cs: seq<Chunk>, n: nat)
    requires n <= |cs|
    ensures PutAll(s, cs, n).vector.Keys == s.vector.Keys + KeysOf(cs, n)
    ensures PutAll(s, cs, n).lexical.Keys == s.lexical.Keys + KeysOf(cs, n)
  {
    if n > 0 {
      PutKeys(s, cs, n - 1);
      KeysOfPut(PutAll(s, cs, n - 1), cs[n - 1]);
    }
  }

  lemma {:induction false} DistinctCount(cs: seq<Chunk>, n: nat)
    requires n <= |cs| && Distinct(cs)
    ensures |KeysOf(cs, n)| == n
  {
    if n > 0 {
      DistinctCount(cs, n - 1);
      NextKeyIsNew(cs, n - 1);
    }
  }

  // From empty indexes, each ends up with one record per chunk, under exactly the chunks' keys.
  lemma IngestedCount(cs: seq<Chunk>, vectors: seq<seq<real>>)
    requires DistinctIDs(cs) && |vectors| == |cs|
    ensures var t := PutAll(Store(map[], map[]), Embedded(cs, vectors), |cs|);
      && |t.vector| == |t.lexical| == |cs|
      && t.vector.Keys == t.lexical.Keys == KeysOf(Embedded(cs, vectors), |cs|)
  {
    var out := Embedded(cs, vectors);
    EmbeddedAreDistinct(cs, vectors);
    PutKeys(Store(map[], map[]), out, |cs|);
    DistinctCount(out, |cs|);
    var t := PutAll(Store(map[], map[]), out, |cs|);
    assert t.vector.Keys == KeysOf(out, |cs|) && t.lexical.Keys == KeysOf(out, |cs|);
    assert |t.vector| == |t.vector.Keys| && |t.lexical| == |t.lexical.Keys|;
  }
}
