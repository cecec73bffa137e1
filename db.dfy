/** The shared database of `src/db.rs`: the key/value entries with their
    optional deadlines, the ordered set of pending expirations, the pub/sub
    channels and the shutdown flag.

    Each operation runs under the state's mutex in the Rust code; here each
    method is one atomic step. Time is a parameter `now`, in whole
    milliseconds, wherever the Rust code reads `Instant::now()`. A broadcast
    channel is represented by the number of its live receivers, which is all
    that `publish` reports. */
module Database {
  import opened Wrappers
  import opened Bytes

  /** A stored value and the instant (in milliseconds) it expires at. */
  datatype Entry = Entry(data: Bytes, expiresAt: Option<nat>)

  /** An entry whose deadline is at or before `now`. */
  predicate Expired(e: Entry, now: nat) {
    e.expiresAt.Some? && e.expiresAt.value <= now
  }

  /** `when` is the first instant of the expiration set `s`, as
      `expirations.iter().next()` finds it, or `None` for an empty set. */
  predicate Earliest(when: Option<nat>, s: set<(nat, Bytes)>) {
    match when
    case None => s == {}
    case Some(w) => (exists p | p in s :: p.0 == w) && forall p | p in s :: w <= p.0
  }

  /** A non-empty expiration set has a first element. */
  lemma {:induction false} FirstExists(s: set<(nat, Bytes)>) returns (first: (nat, Bytes))
    requires s != {}
    ensures first in s && forall q | q in s :: first.0 <= q.0
    decreases s
  {
    var x: (nat, Bytes) :| x in s;
    var earlier := set q | q in s && q.0 < x.0;
    if earlier == {} {
      first := x;
      forall q | q in s ensures x.0 <= q.0 {
        assert q !in earlier;
      }
    } else {
      assert x !in earlier;
      first := FirstExists(earlier);
      forall q | q in s ensures first.0 <= q.0 {
        if q.0 < x.0 {
          assert q in earlier;
        }
      }
    }
  }

  /** The expiration set mirrors the deadlines of the entries: `(when, key)`
      is pending exactly when `key` is stored with deadline `when`. */
  ghost predicate Mirrors(entries: map<Bytes, Entry>, expirations: set<(nat, Bytes)>) {
    (forall p | p in expirations :: p.1 in entries && entries[p.1].expiresAt == Some(p.0)) &&
    (forall k | k in entries && entries[k].expiresAt.Some? :: (entries[k].expiresAt.value, k) in expirations)
  }

  /** Part-way through a purge at `now` that started from `entries0` and
      `expirations0`: only expired entries and their pending deadlines have
      been removed, and nothing else has changed. */
  ghost predicate Purging(entries0: map<Bytes, Entry>, expirations0: set<(nat, Bytes)>,
                          entries: map<Bytes, Entry>, expirations: set<(nat, Bytes)>, now: nat) {
    expirations <= expirations0 &&
    (forall p | p in expirations0 && p !in expirations :: p.0 <= now) &&
    (forall k | k in entries :: k in entries0 && entries[k] == entries0[k]) &&
    (forall k | k in entries0 && k !in entries :: Expired(entries0[k], now))
  }

  /** Removing the first pending deadline, when it has passed, keeps a purge
      on track. */
  lemma PurgeStep(entries0: map<Bytes, Entry>, expirations0: set<(nat, Bytes)>,
                  entries: map<Bytes, Entry>, expirations: set<(nat, Bytes)>, now: nat, p: (nat, Bytes))
    requires Mirrors(entries, expirations) && Purging(entries0, expirations0, entries, expirations, now)
    requires p in expirations && p.0 <= now
    ensures Mirrors(entries - {p.1}, expirations - {p})
    ensures Purging(entries0, expirations0, entries - {p.1}, expirations - {p}, now)
  {
    var e := entries - {p.1};
    var x := expirations - {p};
    forall q | q in x ensures q.1 in e && e[q.1].expiresAt == Some(q.0) {
      assert q.1 != p.1;
    }
    forall k | k in entries0 && k !in e ensures Expired(entries0[k], now) {
      if k == p.1 {
        assert entries[k] == entries0[k];
      }
    }
  }

  /** A purge whose first pending deadline is later than `now` (or that has
      none left) has removed exactly the expired entries. */
  lemma PurgeDone(entries0: map<Bytes, Entry>, expirations0: set<(nat, Bytes)>,
                  entries: map<Bytes, Entry>, expirations: set<(nat, Bytes)>, now: nat)
    requires Mirrors(entries0, expirations0) && Mirrors(entries, expirations)
    requires Purging(entries0, expirations0, entries, expirations, now)
    requires forall q | q in expirations :: now < q.0
    ensures entries == (map k | k in entries0 && !Expired(entries0[k], now) :: entries0[k])
    ensures expirations == (set q | q in expirations0 && q.0 > now)
  {
    forall k | k in entries ensures !Expired(entries[k], now) {
      if entries[k].expiresAt.Some? {
        assert (entries[k].expiresAt.value, k) in expirations;
      }
    }
    forall q | q in expirations0 && q.0 > now ensures q in expirations {
      assert q.1 in entries0 && entries0[q.1].expiresAt == Some(q.0);
      assert !Expired(entries0[q.1], now);
      assert entries[q.1] == entries0[q.1];
    }
  }

  /** The pending deadlines of every key but `key`. */
  function Without(expirations: set<(nat, Bytes)>, key: Bytes): (r: set<(nat, Bytes)>)
    ensures r <= expirations
    ensures forall p | p in r :: p.1 != key
  {
    set p | p in expirations && p.1 != key
  }

  /** In a mirrored state the only deadline pending for `key` is that of its
      entry, so dropping it (if any) leaves the deadlines of the other keys. */
  lemma DropDeadline(entries: map<Bytes, Entry>, expirations: set<(nat, Bytes)>, key: Bytes)
    requires Mirrors(entries, expirations)
    ensures key in entries && entries[key].expiresAt.Some? ==>
      expirations - {(entries[key].expiresAt.value, key)} == Without(expirations, key)
    ensures !(key in entries && entries[key].expiresAt.Some?) ==>
      expirations == Without(expirations, key)
  {
  }

  /** Storing `e` under `key`, with the deadlines of the other keys and that
      of `e`, keeps the state mirrored. */
  lemma StoreMirrors(entries: map<Bytes, Entry>, expirations: set<(nat, Bytes)>, key: Bytes, e: Entry)
    requires Mirrors(entries, expirations)
    ensures Mirrors(entries[key := e],
                    Without(expirations, key) + (if e.expiresAt.Some? then {(e.expiresAt.value, key)} else {}))
  {
  }

  /** The value stored under `key`, expired or not. */
  function Lookup(entries: map<Bytes, Entry>, key: Bytes): (r: Option<Bytes>)
    ensures r.Some? <==> key in entries
  {
    if key in entries then Some(entries[key].data) else None
  }

  /** The live receivers of a channel; a channel never created has none. */
  function Held(pubSub: map<Bytes, nat>, channel: Bytes): nat {
    if channel in pubSub then pubSub[channel] else 0
  }

  class Db {
    var entries: map<Bytes, Entry>
    var expirations: set<(nat, Bytes)>
    var pubSub: map<Bytes, nat>
    var isShutdown: bool

    ghost predicate Valid()
      reads this
    {
      Mirrors(entries, expirations)
    }

    /** `Db::new`: no entries, nothing pending, no channels. */
    constructor()
      ensures Valid()
      ensures entries == map[] && expirations == {} && pubSub == map[] && !isShutdown
    {
      entries := map[];
      expirations := {};
      pubSub := map[];
      isShutdown := false;
    }

    /** `Db::get`: the stored value, whether or not its deadline has passed
        (only the purge removes expired keys). */
    function Get(key: Bytes): (r: Option<Bytes>)
      reads this
      ensures r.Some? <==> key in entries
      ensures r.Some? ==> r.value == entries[key].data
    {
      Lookup(entries, key)
    }

    /** `State::next_expiration`: the first pending deadline. */
    method NextExpiration() returns (r: Option<nat>)
      ensures Earliest(r, expirations)
    {
      if expirations == {} {
        return None;
      }
      ghost var first := FirstExists(expirations);
      var p :| p in expirations && forall q | q in expirations :: p.0 <= q.0;
      return Some(p.0);
    }

    /** `Db::set`: stores `value` under `key` with deadline `now + expire`,
        replaces the key's pending expiration, and tells whether the purge
        task must be woken: exactly when the new deadline comes before every
        deadline pending before the call. */
    method Set(key: Bytes, value: Bytes, expire: Option<nat>, now: nat) returns (notify: bool)
      requires Valid()
      modifies this`entries, this`expirations
      ensures Valid()
      ensures var expiresAt := if expire.Some? then Some(now + expire.value) else None;
        entries == old(entries)[key := Entry(value, expiresAt)] &&
        expirations == Without(old(expirations), key) +
                       (if expire.Some? then {(now + expire.value, key)} else {})
      ensures notify <==> expire.Some? && forall p | p in old(expirations) :: now + expire.value < p.0
      ensures Get(key) == Some(value) && forall k | k != key :: Get(k) == old(Get(k))
    {
      var wake := false;
      var expiresAt: Option<nat> := None;
      if expire.Some? {
        var when := now + expire.value;
        var next := NextExpiration();
        wake := next.None? || next.value > when;
        expiresAt := Some(when);
      }
      DropDeadline(entries, expirations, key);
      StoreMirrors(entries, expirations, key, Entry(value, expiresAt));
      var prev := if key in entries then Some(entries[key]) else None;
      entries := entries[key := Entry(value, expiresAt)];
      if prev.Some? && prev.value.expiresAt.Some? {
        expirations := expirations - {(prev.value.expiresAt.value, key)};
      }
      if expiresAt.Some? {
        expirations := expirations + {(expiresAt.value, key)};
      }
      notify := wake;
    }

    /** `Db::subscribe`: a new receiver on `channel`, creating the channel on
        first use. Channels are never removed. */
    method Subscribe(channel: Bytes)
      modifies this`pubSub
      ensures pubSub == old(pubSub)[channel := if channel in old(pubSub) then old(pubSub)[channel] + 1 else 1]
    {
      if channel in pubSub {
        pubSub := pubSub[channel := pubSub[channel] + 1];
      } else {
        pubSub := pubSub[channel := 1];
      }
    }

    /** A receiver of `channel` is dropped (its subscriber left): the sender
        stays, with one receiver fewer. */
    method DropReceiver(channel: Bytes)
      requires channel in pubSub && pubSub[channel] > 0
      modifies this`pubSub
      ensures pubSub == old(pubSub)[channel := old(pubSub)[channel] - 1]
    {
      pubSub := pubSub[channel := pubSub[channel] - 1];
    }

    /** `Db::publish` as written: `None` is the `unwrap` of a missing
        channel, which panics. */
    function PublishAsWritten(channel: Bytes): Option<nat>
      reads this
    {
      if channel in pubSub then Some(pubSub[channel]) else None
    }

    /** `Db::publish` as its comment describes it: the number of receivers
        the message reached, 0 when the channel has none or does not exist. */
    function Publish(channel: Bytes): (n: nat)
      reads this
      ensures channel in pubSub ==> PublishAsWritten(channel) == Some(n)
      ensures channel !in pubSub ==> n == 0
    {
      Held(pubSub, channel)
    }

    /** `Db::shutdown_purge_task`: raises the shutdown flag. */
    method ShutdownPurgeTask()
      modifies this`isShutdown
      ensures isShutdown
    {
      isShutdown := true;
    }

    /** `Shared::purge_expired_keys`: removes every entry whose deadline is
        at or before `now`, and returns the first deadline left. After
        shutdown it returns `None` and changes nothing. */
    method PurgeExpiredKeys(now: nat) returns (r: Option<nat>)
      requires Valid()
      modifies this`entries, this`expirations
      ensures Valid()
      ensures old(isShutdown) ==> r == None && entries == old(entries) && expirations == old(expirations)
      ensures !old(isShutdown) ==>
        entries == (map k | k in old(entries) && !Expired(old(entries)[k], now) :: old(entries)[k]) &&
        expirations == (set p | p in old(expirations) && p.0 > now) &&
        Earliest(r, expirations)
    {
      if isShutdown {
        return None;
      }
      while true
        invariant Valid()
        invariant Purging(old(entries), old(expirations), entries, expirations, now)
        decreases |expirations|
      {
        if expirations == {} {
          r := None;
          break;
        }
        ghost var first := FirstExists(expirations);
        var p :| p in expirations && forall q | q in expirations :: p.0 <= q.0;
        if p.0 > now {
          r := Some(p.0);
          break;
        }
        PurgeStep(old(entries), old(expirations), entries, expirations, now, p);
        entries := entries - {p.1};
        expirations := expirations - {p};
      }
      PurgeDone(old(entries), old(expirations), entries, expirations, now);
    }
  }

  /** Publishing to a channel nobody ever subscribed to makes the code as
      written panic (its comment promises 0), while the corrected `Publish`
      returns 0. */
  lemma PublishToUnknownChannel(db: Db, channel: Bytes)
    requires channel !in db.pubSub
    ensures db.PublishAsWritten(channel) == None
    ensures db.Publish(channel) == 0
  {
  }
}
