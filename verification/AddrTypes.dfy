/** Peers, their statistics, and the hashing that assigns them to buckets. */
module AddrTypes {

  const TRIED_BUCKET_COUNT: nat := 64
  const TRIED_BUCKET_SIZE: nat := 64
  const NEW_BUCKET_COUNT: nat := 256
  const NEW_BUCKET_SIZE: nat := 64
  const TRIED_BUCKETS_PER_GROUP: nat := 4
  const NEW_BUCKETS_PER_SOURCE_GROUP: nat := 32
  const NEW_BUCKETS_PER_ADDRESS: nat := 4
  const TRIED_ENTRIES_INSPECT_ON_EVICT: nat := 4
  const HORIZON_DAYS: nat := 30
  const RETRIES: nat := 3
  const MAX_FAILURES: nat := 10
  const MIN_FAIL_DAYS: nat := 7
  const GETADDR_MAX_PCT: nat := 23
  const GETADDR_MAX: nat := 2500

  /** A network address without port; `mapAddr` is keyed by these. */
  datatype NetAddr = NetAddr(ip: seq<int>)

  /** A network address with port. */
  datatype Service = Service(net: NetAddr, port: int)

  /** An unsigned 32-bit time stamp. */
  type U32 = x: int | 0 <= x < 0x1_0000_0000 witness 0

  /** Assigning a 64-bit time to an `unsigned int` keeps the low 32 bits. */
  function Trunc32(t: int): U32 { t % 0x1_0000_0000 }

  /** The serialised part of an advertised address. */
  datatype Address = Address(service: Service, services: bv64, time: U32)

  /** What the manager remembers about one address. */
  datatype Info = Info(address: Address, source: NetAddr, lastSuccess: int, attempts: int,
                       lastTry: int, refCount: int, inTried: bool, randomPos: int)
  {
    function Net(): NetAddr { address.service.net }
  }

  /** A record as the constructor builds it from an address and its source. */
  function NewInfo(address: Address, source: NetAddr): Info {
    Info(address, source, 0, 0, 0, 0, false, -1)
  }

  /** Code outside the manager: the hash, an address's group and key, and routability. */
  datatype Env = Env(hash: seq<seq<int>> -> nat,
                     group: NetAddr -> seq<int>,
                     serviceKey: Service -> seq<int>,
                     routable: NetAddr -> bool)

  function TriedBucket(env: Env, key: seq<int>, service: Service): (b: nat)
    ensures b < TRIED_BUCKET_COUNT
  {
    var hash1 := env.hash([key, env.serviceKey(service)]);
    env.hash([key, env.group(service.net), [hash1 % TRIED_BUCKETS_PER_GROUP]]) % TRIED_BUCKET_COUNT
  }

  function NewBucket(env: Env, key: seq<int>, net: NetAddr, source: NetAddr): (b: nat)
    ensures b < NEW_BUCKET_COUNT
  {
    var hash1 := env.hash([key, env.group(net), env.group(source)]);
    env.hash([key, env.group(source), [hash1 % NEW_BUCKETS_PER_SOURCE_GROUP]]) % NEW_BUCKET_COUNT
  }

  /** All addresses of one group share four tried buckets of 64, each of which is a hash of the key, the group
      and its number; the hash of the key and the whole address says which of the four. */
  lemma TriedBucketsOfGroup(env: Env, key: seq<int>, group: seq<int>) returns (buckets: seq<nat>)
    ensures |buckets| == 4
    ensures forall i :: 0 <= i < 4 ==> buckets[i] == env.hash([key, group, [i]]) % 64
    ensures forall s: Service :: env.group(s.net) == group ==>
              TriedBucket(env, key, s) == buckets[env.hash([key, env.serviceKey(s)]) % 4]
  {
    buckets := seq(TRIED_BUCKETS_PER_GROUP, i => env.hash([key, group, [i]]) % TRIED_BUCKET_COUNT);
  }

  /** All addresses learned from one source group share thirty-two new buckets of 256, each of which is a hash of
      the key, the source group and its number; the hash of the key and both groups says which of them. */
  lemma NewBucketsOfSourceGroup(env: Env, key: seq<int>, group: seq<int>) returns (buckets: seq<nat>)
    ensures |buckets| == 32
    ensures forall i :: 0 <= i < 32 ==> buckets[i] == env.hash([key, group, [i]]) % 256
    ensures forall net, source :: env.group(source) == group ==>
              NewBucket(env, key, net, source) == buckets[env.hash([key, env.group(net), group]) % 32]
  {
    buckets := seq(NEW_BUCKETS_PER_SOURCE_GROUP, i => env.hash([key, group, [i]]) % NEW_BUCKET_COUNT);
  }

  /** Whether a record is bad enough to be dropped outright. */
  predicate Terrible(info: Info, now: int) {
    if info.lastTry != 0 && info.lastTry >= now - 60 then false
    else if info.address.time > now + 10 * 60 then true
    else if info.address.time == 0 || now - info.address.time > HORIZON_DAYS * 86400 then true
    else if info.lastSuccess == 0 && info.attempts >= RETRIES then true
    else now - info.lastSuccess > MIN_FAIL_DAYS * 86400 && info.attempts >= MAX_FAILURES
  }

  /** The reasons to drop a record: not tried within the last minute, and dated over ten minutes ahead,
      or without a date, or unseen for 30 days, or three attempts without any success,
      or ten attempts and no success for 7 days. */
  ghost predicate Deletable(info: Info, now: int) {
    && (info.lastTry == 0 || info.lastTry < now - 60)
    && (|| info.address.time > now + 600
        || info.address.time == 0
        || now - info.address.time > 2592000
        || (info.lastSuccess == 0 && info.attempts >= 3)
        || (now - info.lastSuccess > 604800 && info.attempts >= 10))
  }

  /** The chain of tests finds exactly these reasons. */
  lemma TerribleIsDeletable(info: Info, now: int)
    ensures Terrible(info, now) <==> Deletable(info, now)
  {
  }

  /** The `i`-th raw random number of an operation, reduced below `n`. */
  function Draw(tape: seq<nat>, i: nat, n: nat): (r: nat)
    ensures n > 0 ==> r < n
    ensures i < |tape| && tape[i] < n ==> r == tape[i]
  {
    if n == 0 || i >= |tape| then 0 else tape[i] % n
  }
}
