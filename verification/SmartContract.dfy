/** The contract-registry pallet: a table from account to uploaded code, a
    counter of uploads, and the `ContractUploaded` events it deposits.

    The pallet is generic over the runtime's account type; so is this
    module (`A`). The SCALE codec of that type is a value of `Codec<A>`,
    about which nothing is assumed unless a contract says `RoundTrips`. */
module SmartContract {
  import opened Wrappers

  /** A byte of contract code (`u8`). */
  type Byte = bv8

  /** The origin a call is dispatched with (the runtime's raw origin). */
  datatype Origin<A> = Root | Signed(who: A) | Unsigned

  /** Errors a dispatchable of this pallet can return: `BadOrigin` from the
      origin check, `ContractNotFound` from the pallet's own error enum. */
  datatype Error = BadOrigin | ContractNotFound

  /** The pallet's single event kind. */
  datatype Event<A> = ContractUploaded(account: A)

  /** The account type's SCALE encoding and decoding, supplied by the runtime. */
  datatype Codec<!A> = Codec(encode: A -> seq<Byte>, decode: seq<Byte> -> Option<A>)

  /** The codec decodes every encoded account back to that account. */
  ghost predicate RoundTrips<A(!new)>(codec: Codec<A>)
  {
    forall a: A :: codec.decode(codec.encode(a)) == Some(a)
  }

  /** `ensure_signed`: the signing account of a signed origin; any other
      origin is refused with `BadOrigin`. */
  function EnsureSigned<A>(origin: Origin<A>): (r: Result<A, Error>)
    ensures r.Success? <==> origin.Signed?
    ensures r.Success? ==> r.value == origin.who
    ensures r.Failure? ==> r.error == BadOrigin
  {
    match origin
    case Signed(who) => Success(who)
    case _ => Failure(BadOrigin)
  }

  /** The storage key of an upload: the sender encoded and decoded back.
      It can fail only if the codec does not round-trip. */
  function DeriveKey<A(!new)>(codec: Codec<A>, sender: A): (key: Option<A>)
    ensures RoundTrips(codec) ==> key == Some(sender)
  {
    codec.decode(codec.encode(sender))
  }

  /** The pallet's storage and deposited events, as one value. */
  datatype Storage<A> = Storage(contracts: map<A, seq<Byte>>, count: nat, events: seq<Event<A>>)

  /** Storage at genesis: no contracts, count zero, no events. */
  function Genesis<A>(): Storage<A>
  {
    Storage(map[], 0, [])
  }

  /** The accounts named by the events, in any order. */
  function Announced<A>(events: seq<Event<A>>): set<A>
  {
    if events == [] then {}
    else Announced(events[..|events| - 1]) + {events[|events| - 1].account}
  }

  /** What every reachable storage satisfies: one event per upload ever
      made, and exactly the announced accounts hold code. */
  ghost predicate Inv<A>(st: Storage<A>)
  {
    && st.count == |st.events|
    && st.contracts.Keys == Announced(st.events)
  }

  /** The result of one dispatched call: the storage after it and its
      `DispatchResult`. */
  datatype Step<A> = Step(state: Storage<A>, result: Result<(), Error>)

  /** `upload_contract` on storage `st`. */
  function Upload<A(!new)>(codec: Codec<A>, st: Storage<A>, origin: Origin<A>, code: seq<Byte>): (out: Step<A>)
    ensures out.result.Success? <==> origin.Signed? && DeriveKey(codec, origin.who).Some?
    ensures !origin.Signed? ==> out == Step(st, Failure(BadOrigin))
    ensures origin.Signed? && DeriveKey(codec, origin.who).None? ==> out == Step(st, Failure(ContractNotFound))
    ensures out.result.Success? ==>
      var key := DeriveKey(codec, origin.who).value;
      && key in out.state.contracts && out.state.contracts[key] == code
      && out.state.contracts.Keys == st.contracts.Keys + {key}
      && (forall k :: k in st.contracts && k != key ==> out.state.contracts[k] == st.contracts[k])
      && out.state.count == st.count + 1
      && out.state.events == st.events + [ContractUploaded(key)]
    ensures out.result.Success? && RoundTrips(codec) ==> out.state.contracts[origin.who] == code
    ensures Inv(st) ==> Inv(out.state)
  {
    match EnsureSigned(origin)
    case Failure(e) => Step(st, Failure(e))
    case Success(sender) =>
      match DeriveKey(codec, sender)
      case None => Step(st, Failure(ContractNotFound))
      case Some(key) =>
        var events := st.events + [ContractUploaded(key)];
        assert events[..|events| - 1] == st.events;
        Step(Storage(st.contracts[key := code], st.count + 1, events), Success(()))
  }

  /** `get_contract` on storage `st`: the stored code on success. */
  function Get<A>(st: Storage<A>, origin: Origin<A>, key: A): (r: Result<seq<Byte>, Error>)
    ensures r.Success? <==> origin.Signed? && key in st.contracts
    ensures r.Success? ==> r.value == st.contracts[key]
    ensures !origin.Signed? ==> r == Failure(BadOrigin)
    ensures origin.Signed? && key !in st.contracts ==> r == Failure(ContractNotFound)
  {
    match EnsureSigned(origin)
    case Failure(e) => Failure(e)
    case Success(_) =>
      if key in st.contracts then Success(st.contracts[key]) else Failure(ContractNotFound)
  }

  /** A call to one of the pallet's dispatchables. */
  datatype Call<A> = UploadContract(origin: Origin<A>, code: seq<Byte>) | GetContract(origin: Origin<A>, key: A)

  /** Dispatches one call; `get_contract` leaves storage as it was and its
      `DispatchResult` carries no code. */
  function Dispatch<A(!new)>(codec: Codec<A>, st: Storage<A>, call: Call<A>): (out: Step<A>)
    ensures call.GetContract? ==> out.state == st
    ensures out.result.Failure? ==> out.state == st
    ensures Inv(st) ==> Inv(out.state)
  {
    match call
    case UploadContract(origin, code) => Upload(codec, st, origin, code)
    case GetContract(origin, key) =>
      match Get(st, origin, key)
      case Failure(e) => Step(st, Failure(e))
      case Success(_) => Step(st, Success(()))
  }

  /** The pallet's state kept in place: the `Contracts` map, the
      `ContractCount` value and the events deposited so far. */
  class Registry<A(==, !new)> {
    const codec: Codec<A>
    var contracts: map<A, seq<Byte>>
    var count: nat
    var events: seq<Event<A>>

    /** The storage as one value. */
    function Snapshot(): Storage<A>
      reads this
    {
      Storage(contracts, count, events)
    }

    ghost predicate Valid()
      reads this
    {
      Inv(Snapshot())
    }

    /** The registry at genesis. */
    constructor (codec: Codec<A>)
      ensures this.codec == codec
      ensures Snapshot() == Genesis()
      ensures Valid()
    {
      this.codec := codec;
      contracts := map[];
      count := 0;
      events := [];
    }

    /** `upload_contract(origin, code)`. */
    method UploadContract(origin: Origin<A>, code: seq<Byte>) returns (r: Result<(), Error>)
      requires Valid()
      modifies this
      ensures Valid()
      ensures Snapshot() == Upload(codec, old(Snapshot()), origin, code).state
      ensures r == Upload(codec, old(Snapshot()), origin, code).result
      ensures r.Failure? ==> unchanged(this)
      ensures r.Success? ==>
        var key := DeriveKey(codec, origin.who).value;
        && contracts == old(contracts)[key := code]
        && count == old(count) + 1
        && events == old(events) + [ContractUploaded(key)]
    {
      var signed := EnsureSigned(origin);
      if signed.Failure? {
        return Failure(signed.error);
      }
      var sender := signed.value;
      var decoded := codec.decode(codec.encode(sender));
      if decoded.None? {
        return Failure(ContractNotFound);
      }
      var key := decoded.value;
      contracts := contracts[key := code];
      var current := count;
      count := current + 1;
      events := events + [ContractUploaded(key)];
      r := Success(());
    }

    /** `get_contract(origin, key)`; the code found is returned. */
    method GetContract(origin: Origin<A>, key: A) returns (r: Result<seq<Byte>, Error>)
      ensures r == Get(Snapshot(), origin, key)
      ensures r.Success? <==> origin.Signed? && key in contracts
      ensures r.Success? ==> r.value == contracts[key]
      ensures !origin.Signed? ==> r == Failure(BadOrigin)
      ensures origin.Signed? && key !in contracts ==> r == Failure(ContractNotFound)
    {
      var signed := EnsureSigned(origin);
      if signed.Failure? {
        return Failure(signed.error);
      }
      if key !in contracts {
        return Failure(ContractNotFound);
      }
      r := Success(contracts[key]);
    }
  }
}
