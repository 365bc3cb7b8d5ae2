/** What the registry promises across calls: the counter counts successful
    uploads, code is never lost, the last upload from an account is what
    any signed caller reads back. */
module SmartContractProperties {
  import opened Wrappers
  import opened SmartContract

  /** The storage after dispatching `calls` in order, as the runtime does. */
  function Run<A(!new)>(codec: Codec<A>, st: Storage<A>, calls: seq<Call<A>>): Storage<A>
    decreases |calls|
  {
    if calls == [] then st
    else Run(codec, Dispatch(codec, st, calls[0]).state, calls[1..])
  }

  /** How many of `calls` are uploads that succeed when dispatched in order. */
  function SuccessfulUploads<A(!new)>(codec: Codec<A>, st: Storage<A>, calls: seq<Call<A>>): nat
    decreases |calls|
  {
    if calls == [] then 0
    else
      var step := Dispatch(codec, st, calls[0]);
      (if calls[0].UploadContract? && step.result.Success? then 1 else 0)
        + SuccessfulUploads(codec, step.state, calls[1..])
  }

  /** There are no more announced accounts than events. */
  lemma {:induction false} AnnouncedSize<A>(events: seq<Event<A>>)
    ensures |Announced(events)| <= |events|
  {
    if events != [] {
      AnnouncedSize(events[..|events| - 1]);
    }
  }

  /** The counter bounds the number of accounts holding code; it exceeds
      it by the number of overwriting uploads. */
  lemma KeysBoundedByCount<A>(st: Storage<A>)
    requires Inv(st)
    ensures |st.contracts| <= st.count
  {
    AnnouncedSize(st.events);
    assert |st.contracts| == |st.contracts.Keys|;
  }

  /** Every call, in every order, keeps the invariant. */
  lemma {:induction false} RunKeepsInv<A(!new)>(codec: Codec<A>, st: Storage<A>, calls: seq<Call<A>>)
    requires Inv(st)
    ensures Inv(Run(codec, st, calls))
    decreases |calls|
  {
    if calls != [] {
      RunKeepsInv(codec, Dispatch(codec, st, calls[0]).state, calls[1..]);
    }
  }

  /** The counter goes up by exactly the number of successful uploads,
      whether they add an account or overwrite one. */
  lemma {:induction false} RunCount<A(!new)>(codec: Codec<A>, st: Storage<A>, calls: seq<Call<A>>)
    ensures Run(codec, st, calls).count == st.count + SuccessfulUploads(codec, st, calls)
    decreases |calls|
  {
    if calls != [] {
      RunCount(codec, Dispatch(codec, st, calls[0]).state, calls[1..]);
    }
  }

  /** From genesis, the counter equals the number of successful uploads and
      bounds the number of accounts holding code. */
  lemma CountFromGenesis<A(!new)>(codec: Codec<A>, calls: seq<Call<A>>)
    ensures Run(codec, Genesis(), calls).count == SuccessfulUploads(codec, Genesis(), calls)
    ensures |Run(codec, Genesis(), calls).contracts| <= SuccessfulUploads(codec, Genesis(), calls)
  {
    RunCount(codec, Genesis(), calls);
    RunKeepsInv(codec, Genesis(), calls);
    KeysBoundedByCount(Run(codec, Genesis(), calls));
  }

  /** No call removes code and none lowers the counter. */
  lemma {:induction false} RunNeverForgets<A(!new)>(codec: Codec<A>, st: Storage<A>, calls: seq<Call<A>>, k: A)
    requires k in st.contracts
    ensures k in Run(codec, st, calls).contracts
    ensures st.count <= Run(codec, st, calls).count
    decreases |calls|
  {
    if calls != [] {
      RunNeverForgets(codec, Dispatch(codec, st, calls[0]).state, calls[1..], k);
    }
  }

  /** Failing calls and lookups leave the storage as it was. */
  lemma {:induction false} RunWithoutUploadsIsIdle<A(!new)>(codec: Codec<A>, st: Storage<A>, calls: seq<Call<A>>)
    requires SuccessfulUploads(codec, st, calls) == 0
    ensures Run(codec, st, calls) == st
    decreases |calls|
  {
    if calls != [] {
      var step := Dispatch(codec, st, calls[0]);
      assert step.state == st;
      RunWithoutUploadsIsIdle(codec, st, calls[1..]);
    }
  }

  /** With a codec that round-trips, any signed caller reads back the code
      the sender just uploaded under the sender's own account. */
  lemma UploadThenGet<A(!new)>(codec: Codec<A>, st: Storage<A>, sender: A, code: seq<Byte>, caller: A)
    requires RoundTrips(codec)
    ensures Upload(codec, st, Signed(sender), code).result == Success(())
    ensures Get(Upload(codec, st, Signed(sender), code).state, Signed(caller), sender) == Success(code)
  {
  }

  /** A second upload from the same sender replaces the first code and
      still counts. */
  lemma ReuploadOverwrites<A(!new)>(codec: Codec<A>, st: Storage<A>, sender: A, first: seq<Byte>, second: seq<Byte>, caller: A)
    requires RoundTrips(codec)
    ensures
      var after := Upload(codec, Upload(codec, st, Signed(sender), first).state, Signed(sender), second).state;
      && Get(after, Signed(caller), sender) == Success(second)
      && after.count == st.count + 2
  {
  }

  /** The caller's account plays no part in a lookup. */
  lemma GetIgnoresCaller<A>(st: Storage<A>, a: A, b: A, key: A)
    ensures Get(st, Signed(a), key) == Get(st, Signed(b), key)
  {
  }

  /** A codec whose decoder refuses its own encoding makes every signed
      upload fail with `ContractNotFound` and leave storage untouched. */
  lemma DecodeFailureIsReachable<A(!new)>(st: Storage<A>, sender: A, code: seq<Byte>)
    ensures
      var refusing := Codec((a: A) => [], (bytes: seq<Byte>) => None);
      && !RoundTrips(refusing)
      && Upload(refusing, st, Signed(sender), code) == Step(st, Failure(ContractNotFound))
  {
    var refusing := Codec((a: A) => [], (bytes: seq<Byte>) => None);
    assert refusing.decode(refusing.encode(sender)) != Some(sender);
  }

  /** One-byte accounts with the one-byte SCALE encoding. */
  function ByteAccounts(): Codec<Byte>
  {
    Codec((a: Byte) => [a], (bytes: seq<Byte>) => if |bytes| == 0 then None else Some(bytes[0]))
  }

  lemma ByteAccountsRoundTrip()
    ensures RoundTrips(ByteAccounts())
  {
  }

  /** Two uploads from account 0xAA and lookups by other callers, on a
      fresh registry, using only the methods' contracts. */
  method Scenario()
  {
    ByteAccountsRoundTrip();
    var registry := new Registry<Byte>(ByteAccounts());
    var r := registry.UploadContract(Signed(0xAA), [1, 2, 3]);
    assert r == Success(()) && registry.count == 1;
    var got := registry.GetContract(Signed(0xBB), 0xAA);
    assert got == Success([1, 2, 3]);
    r := registry.UploadContract(Signed(0xAA), [9, 9]);
    assert r == Success(()) && registry.count == 2;
    got := registry.GetContract(Signed(0xCC), 0xAA);
    assert got == Success([9, 9]);
    got := registry.GetContract(Signed(0xAA), 0xBB);
    assert got == Failure(ContractNotFound);
    r := registry.UploadContract(Unsigned, [7]);
    assert r == Failure(BadOrigin) && registry.count == 2;
    got := registry.GetContract(Root, 0xAA);
    assert got == Failure(BadOrigin);
  }
}
