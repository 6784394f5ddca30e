/** Signing-key rotation over any number of instances, whose clocks and delays
    are bounded: how long the key behind a token stays stored. */
module SigningKeys {
  import opened Results

  type Kid = nat

  /** A stored key's `_id`: the fixed one of the active key, or its own id once
      it is retired. */
  datatype Role = Active | Retired(kid: Kid)

  /** `retireAfter` is in microseconds, and 0 on the active key. */
  datatype Key = Key(kid: Kid, retireAfter: int)

  type Keys = map<Role, Key>

  const SECOND := 1_000_000
  const TOKEN_TTL := 3600
  const REFRESH_INTERVAL := 60
  const RETIRED_KEY_GRACE := TOKEN_TTL + REFRESH_INTERVAL + 300
  const LEEWAY := 60

  // ---- the shared collection ----

  function Inserted(keys: Keys, candidate: Kid): Keys {
    if Active in keys then keys else keys[Active := Key(candidate, 0)]
  }

  function Rotated(keys: Keys, candidate: Kid, retireAfter: int): Keys {
    var rest := if Active in keys then keys[Retired(keys[Active].kid) := Key(keys[Active].kid, retireAfter)] else keys;
    rest[Active := Key(candidate, 0)]
  }

  function Purged(keys: Keys, now: int): Keys {
    map r | r in keys && !(0 < keys[r].retireAfter < now) :: keys[r]
  }

  lemma RemovalCounts(keys: Keys, gone: set<Role>)
    requires gone <= keys.Keys
    ensures |gone| == |keys| - |keys - gone|
  {
    assert (keys - gone).Keys == keys.Keys - gone;
    assert |keys.Keys - gone| + |gone| == |keys.Keys|;
    assert |keys| == |keys.Keys| && |keys - gone| == |(keys - gone).Keys|;
  }

  class KeyStore {
    var keys: Keys

    constructor ()
      ensures keys == map[]
    {
      keys := map[];
    }

    /** The active key, the candidate's if there was none. */
    method SigningKeyOrInsert(candidate: Kid) returns (key: Key)
      modifies this
      ensures keys == Inserted(old(keys), candidate)
      ensures Active in keys && key == keys[Active]
    {
      if Active !in keys {
        keys := keys[Active := Key(candidate, 0)];
      }
      key := keys[Active];
    }

    /** Retiring is an insert under the key's own id and a delete, then the
        candidate becomes active. */
    method RotateSigningKey(candidate: Kid, retireAfter: int)
      modifies this
      ensures keys == Rotated(old(keys), candidate, retireAfter)
    {
      if Active in keys {
        var current := keys[Active];
        keys := keys[Retired(current.kid) := current.(retireAfter := retireAfter)];
        keys := keys - {Active};
      }
      keys := keys[Active := Key(candidate, 0)];
    }

    method PurgeRetiredSigningKeys(now: int) returns (deleted: nat)
      modifies this
      ensures keys == Purged(old(keys), now) && deleted == |old(keys)| - |keys|
    {
      var gone := set r | r in keys && 0 < keys[r].retireAfter < now;
      RemovalCounts(keys, gone);
      keys := keys - gone;
      deleted := |gone|;
    }
  }

  // ---- runs ----

  /** How long reads, mints and rotations may take between their clock reading
      or store access and their effect, and how far a wall clock may be off. */
  datatype Bounds = Bounds(load: nat, mint: nat, rotate: nat, skew: nat)

  /** 240 s in all: what the grace leaves after a token's life, the refresh
      interval and the leeway. Both ends of the comparison may be skewed. */
  predicate Tolerable(b: Bounds) {
    b.load + b.mint + b.rotate + 2 * b.skew <= (RETIRED_KEY_GRACE - REFRESH_INTERVAL - TOKEN_TTL - LEEWAY) * SECOND
  }

  /** An instance's copy of the active key: when the store was read, and when
      the copy was filed, from which its age counts. */
  datatype Copy = Copy(kid: Kid, readAt: int, filedAt: int)

  /** Signing material taken for one token. */
  datatype Use = Use(kid: Kid, readAt: int, usedAt: int)

  datatype Token = Token(kid: Kid, readAt: int, exp: int)

  datatype Rotation = Rotation(retireAfter: int, startedAt: int)

  /** Real time in microseconds; the stored keys; what the instances have in
      hand; and the past: tokens, key ids, when each key stopped being active,
      and the clock readings that purged keys. */
  datatype State = State(
    time: int,
    keys: Keys,
    loading: set<Copy>,
    copies: map<nat, Copy>,
    uses: set<Use>,
    rotating: set<Rotation>,
    tokens: set<Token>,
    issued: set<Kid>,
    retiredAt: map<Kid, int>,
    purgedAt: map<Kid, int>)

  datatype Step =
    | Pass(elapsed: nat)
    | Read(candidate: Kid)
    | File(instance: nat, copy: Copy)
    | Forget(instance: nat)
    | Take(instance: nat)
    | Mint(use: Use, clock: int)
    | BeginRotation(clock: int)
    | Rotate(rotation: Rotation, candidate: Kid)
    | Purge(clock: int)

  /** Whole seconds of a clock reading. */
  function Seconds(clock: int): int {
    clock / SECOND
  }

  predicate Enabled(b: Bounds, s: State, step: Step) {
    match step
    case Pass(_) => true
    case Read(candidate) => candidate !in s.issued
    case File(_, copy) => copy in s.loading && s.time - copy.readAt <= b.load
    case Forget(_) => true
    case Take(i) => i in s.copies && s.time - s.copies[i].filedAt < REFRESH_INTERVAL * SECOND
    case Mint(use, clock) => use in s.uses && s.time - use.usedAt <= b.mint && clock <= s.time + b.skew
    case BeginRotation(clock) => 0 < clock && s.time - b.skew <= clock
    case Rotate(r, candidate) => r in s.rotating && s.time - r.startedAt <= b.rotate && candidate !in s.issued
    case Purge(clock) => clock <= s.time + b.skew
  }

  function PurgedNow(keys: Keys, now: int): map<Kid, int> {
    map r | r in keys && r.Retired? && 0 < keys[r].retireAfter < now :: r.kid := now
  }

  function Next(s: State, step: Step): State {
    match step
    case Pass(elapsed) => s.(time := s.time + elapsed)
    case Read(candidate) =>
      var keys := Inserted(s.keys, candidate);
      s.(keys := keys, issued := s.issued + {keys[Active].kid},
         loading := s.loading + {Copy(keys[Active].kid, s.time, s.time)})
    case File(i, copy) => s.(copies := s.copies[i := copy.(filedAt := s.time)])
    case Forget(i) => s.(copies := s.copies - {i})
    case Take(i) =>
      if i !in s.copies then s else s.(uses := s.uses + {Use(s.copies[i].kid, s.copies[i].readAt, s.time)})
    case Mint(use, clock) => s.(tokens := s.tokens + {Token(use.kid, use.readAt, Seconds(clock) + TOKEN_TTL)})
    case BeginRotation(clock) =>
      s.(rotating := s.rotating + {Rotation((Seconds(clock) + RETIRED_KEY_GRACE) * SECOND, s.time)})
    case Rotate(r, candidate) =>
      s.(keys := Rotated(s.keys, candidate, r.retireAfter), issued := s.issued + {candidate},
         retiredAt := if Active in s.keys then s.retiredAt[s.keys[Active].kid := s.time] else s.retiredAt)
    case Purge(clock) =>
      var now := Seconds(clock) * SECOND;
      s.(keys := Purged(s.keys, now),
         purgedAt := s.purgedAt + PurgedNow(s.keys, now))
  }

  // ---- the invariant ----

  /** A stored key is where its role says; retired keys keep a deadline at
      least the grace past the moment they were retired, less what delay and
      skew may have taken. */
  ghost predicate Deadline(b: Bounds, s: State, kid: Kid, deadline: int) {
    kid in s.retiredAt && deadline >= (Seconds(s.retiredAt[kid] - b.rotate - b.skew) + RETIRED_KEY_GRACE) * SECOND
  }

  ghost predicate StoreSound(b: Bounds, s: State) {
    && (forall r :: r in s.keys ==> s.keys[r].kid in s.issued)
    && (Active in s.keys ==> s.keys[Active].retireAfter == 0 && s.keys[Active].kid !in s.retiredAt)
    && (forall k :: Retired(k) in s.keys ==>
          s.keys[Retired(k)].kid == k && s.keys[Retired(k)].retireAfter > 0 && Deadline(b, s, k, s.keys[Retired(k)].retireAfter))
    && (forall k :: k in s.retiredAt ==> k in s.issued && s.retiredAt[k] <= s.time)
    && (forall k :: k in s.retiredAt && Retired(k) !in s.keys ==> Gone(b, s, k))
  }

  /** A retired key is stored until a purge that had passed its deadline. */
  ghost predicate Gone(b: Bounds, s: State, k: Kid) {
    k in s.purgedAt && exists d :: Deadline(b, s, k, d) && d < s.purgedAt[k]
  }

  /** Read from the store at that time: the key was active then. */
  ghost predicate WasActive(s: State, kid: Kid, readAt: int) {
    && readAt <= s.time
    && ((Active in s.keys && s.keys[Active].kid == kid) || (kid in s.retiredAt && readAt <= s.retiredAt[kid]))
  }

  ghost predicate HandsSound(b: Bounds, s: State) {
    && (forall c :: c in s.loading ==> WasActive(s, c.kid, c.readAt))
    && (forall i :: i in s.copies ==>
          WasActive(s, s.copies[i].kid, s.copies[i].readAt) && s.copies[i].filedAt <= s.copies[i].readAt + b.load
          && s.copies[i].filedAt <= s.time)
    && (forall u :: u in s.uses ==>
          WasActive(s, u.kid, u.readAt) && u.usedAt < u.readAt + b.load + REFRESH_INTERVAL * SECOND && u.usedAt <= s.time)
    && (forall r :: r in s.rotating ==>
          r.retireAfter > 0 && r.startedAt <= s.time
          && r.retireAfter >= (Seconds(r.startedAt - b.skew) + RETIRED_KEY_GRACE) * SECOND)
  }

  /** A token expires no later than its key's copy could have led it to. */
  function LatestExpiry(b: Bounds, readAt: int): int {
    Seconds(readAt + b.load + REFRESH_INTERVAL * SECOND - 1 + b.mint + b.skew) + TOKEN_TTL
  }

  ghost predicate TokensSound(b: Bounds, s: State) {
    forall t :: t in s.tokens ==> WasActive(s, t.kid, t.readAt) && t.exp <= LatestExpiry(b, t.readAt)
  }

  ghost predicate Invariant(b: Bounds, s: State) {
    StoreSound(b, s) && HandsSound(b, s) && TokensSound(b, s)
  }

  /** The arithmetic behind the grace: a key's deadline is past the expiry and
      leeway of any token a copy of it could have signed. */
  lemma DeadlineCovers(b: Bounds, readAt: int, retiredAt: int, deadline: int, exp: int)
    requires Tolerable(b) && readAt <= retiredAt && exp <= LatestExpiry(b, readAt)
    requires deadline >= (Seconds(retiredAt - b.rotate - b.skew) + RETIRED_KEY_GRACE) * SECOND
    ensures (exp + LEEWAY) * SECOND <= deadline
  {
    var late, early := readAt + b.load + REFRESH_INTERVAL * SECOND - 1 + b.mint + b.skew, retiredAt - b.rotate - b.skew;
    assert late - early < 300 * SECOND;
    assert Seconds(late) <= Seconds(early) + 300;
  }

  lemma SecondsMonotone(a: int, c: int)
    requires a <= c
    ensures Seconds(a) <= Seconds(c)
  {}

  /** Whoever was active at a time was active at it still, after any step that
      moves no key or retires the one in hand now. */
  lemma StaysActive(s: State, t: State, kid: Kid, readAt: int)
    requires WasActive(s, kid, readAt) && s.time <= t.time
    requires (t.keys == s.keys && t.retiredAt == s.retiredAt)
      || (Active in s.keys && t.retiredAt == s.retiredAt[s.keys[Active].kid := s.time] && s.keys[Active].kid !in s.retiredAt)
      || (Active in s.keys && Active in t.keys && t.keys[Active] == s.keys[Active] && t.retiredAt == s.retiredAt)
      || (Active !in s.keys && t.retiredAt == s.retiredAt)
    ensures WasActive(t, kid, readAt)
  {}

  lemma RotateSound(b: Bounds, s: State, r: Rotation, candidate: Kid)
    requires Invariant(b, s) && Enabled(b, s, Rotate(r, candidate))
    ensures StoreSound(b, Next(s, Rotate(r, candidate)))
  {
    var t := Next(s, Rotate(r, candidate));
    SecondsMonotone(s.time - b.rotate - b.skew, r.startedAt - b.skew);
    forall k | Retired(k) in t.keys
      ensures t.keys[Retired(k)].kid == k && t.keys[Retired(k)].retireAfter > 0
      ensures Deadline(b, t, k, t.keys[Retired(k)].retireAfter)
    {
      if Retired(k) in s.keys && t.keys[Retired(k)] == s.keys[Retired(k)] {
        assert Deadline(b, s, k, s.keys[Retired(k)].retireAfter);
      }
    }
    forall k | k in t.retiredAt && Retired(k) !in t.keys
      ensures Gone(b, t, k)
    {
      assert Gone(b, s, k);
      var d :| Deadline(b, s, k, d) && d < s.purgedAt[k];
      assert Deadline(b, t, k, d);
    }
  }

  lemma PurgedNowAt(keys: Keys, now: int, k: Kid)
    ensures k in PurgedNow(keys, now) <==> Retired(k) in keys && 0 < keys[Retired(k)].retireAfter < now
    ensures k in PurgedNow(keys, now) ==> PurgedNow(keys, now)[k] == now
  {
    if Retired(k) in keys && 0 < keys[Retired(k)].retireAfter < now {
      assert Retired(k).kid in PurgedNow(keys, now);
    }
  }

  lemma GoneNow(b: Bounds, s: State, t: State, k: Kid, now: int)
    requires t.retiredAt == s.retiredAt && k in t.purgedAt && t.purgedAt[k] == now
    requires exists d :: Deadline(b, s, k, d) && d < now
    ensures Gone(b, t, k)
  {
    var d :| Deadline(b, s, k, d) && d < now;
    assert Deadline(b, t, k, d);
  }

  lemma PurgeGone(b: Bounds, s: State, clock: int, k: Kid)
    requires Invariant(b, s) && k in s.retiredAt && Retired(k) !in Next(s, Purge(clock)).keys
    ensures Gone(b, Next(s, Purge(clock)), k)
  {
    var t, now := Next(s, Purge(clock)), Seconds(clock) * SECOND;
    PurgedNowAt(s.keys, now, k);
    if Retired(k) in s.keys {
      assert Deadline(b, s, k, s.keys[Retired(k)].retireAfter);
      GoneNow(b, s, t, k, now);
    } else {
      assert Gone(b, s, k);
      GoneNow(b, s, t, k, s.purgedAt[k]);
    }
  }

  lemma PurgeSound(b: Bounds, s: State, clock: int)
    requires Invariant(b, s)
    ensures StoreSound(b, Next(s, Purge(clock)))
  {
    var t := Next(s, Purge(clock));
    forall k | k in t.retiredAt && Retired(k) !in t.keys
      ensures Gone(b, t, k)
    {
      PurgeGone(b, s, clock, k);
    }
    var now := Seconds(clock) * SECOND;
    PurgeKeeps(b, s, t, now);
  }

  /** What a purge leaves is stored as before. */
  lemma PurgeKeeps(b: Bounds, s: State, t: State, now: int)
    requires StoreSound(b, s)
    requires t.keys == Purged(s.keys, now) && t.retiredAt == s.retiredAt && t.issued == s.issued && t.time == s.time
    requires forall k :: k in t.retiredAt && Retired(k) !in t.keys ==> Gone(b, t, k)
    ensures StoreSound(b, t)
  {
    forall k | Retired(k) in t.keys
      ensures t.keys[Retired(k)] == s.keys[Retired(k)]
      ensures Deadline(b, t, k, t.keys[Retired(k)].retireAfter)
    {
      assert Deadline(b, s, k, s.keys[Retired(k)].retireAfter);
    }
  }

  lemma StoreStep(b: Bounds, s: State, step: Step)
    requires Invariant(b, s) && Enabled(b, s, step)
    ensures StoreSound(b, Next(s, step))
  {
    match step
    case Rotate(r, candidate) => RotateSound(b, s, r, candidate);
    case Purge(clock) => PurgeSound(b, s, clock);
    case _ => QuietSound(b, s, step);
  }

  /** The other steps retire and purge nothing. */
  lemma QuietSound(b: Bounds, s: State, step: Step)
    requires Invariant(b, s) && Enabled(b, s, step) && !step.Rotate? && !step.Purge?
    ensures StoreSound(b, Next(s, step))
  {
    var t := Next(s, step);
    assert t.retiredAt == s.retiredAt && t.purgedAt == s.purgedAt;
    forall k | k in t.retiredAt && Retired(k) !in t.keys
      ensures Gone(b, t, k)
    {
      assert Gone(b, s, k);
      var d :| Deadline(b, s, k, d) && d < s.purgedAt[k];
      assert Deadline(b, t, k, d);
    }
  }

  lemma ActivePreserved(b: Bounds, s: State, step: Step, kid: Kid, readAt: int)
    requires Invariant(b, s) && Enabled(b, s, step) && WasActive(s, kid, readAt)
    ensures WasActive(Next(s, step), kid, readAt)
  {
    StaysActive(s, Next(s, step), kid, readAt);
  }

  lemma HandsStep(b: Bounds, s: State, step: Step)
    requires Invariant(b, s) && Enabled(b, s, step)
    ensures HandsSound(b, Next(s, step))
  {
    var t := Next(s, step);
    forall kid, readAt | WasActive(s, kid, readAt)
      ensures WasActive(t, kid, readAt)
    {
      ActivePreserved(b, s, step, kid, readAt);
    }
    if step.BeginRotation? {
      SecondsMonotone(s.time - b.skew, step.clock);
    }
  }

  lemma TokensStep(b: Bounds, s: State, step: Step)
    requires Invariant(b, s) && Enabled(b, s, step)
    ensures TokensSound(b, Next(s, step))
  {
    forall k: Token | k in s.tokens
      ensures WasActive(Next(s, step), k.kid, k.readAt)
    {
      ActivePreserved(b, s, step, k.kid, k.readAt);
    }
    if step.Mint? {
      var use := step.use;
      ActivePreserved(b, s, step, use.kid, use.readAt);
      SecondsMonotone(step.clock, use.readAt + b.load + REFRESH_INTERVAL * SECOND - 1 + b.mint + b.skew);
    }
  }

  // ---- over whole runs ----

  predicate Legal(b: Bounds, s: State, steps: seq<Step>)
    decreases |steps|
  {
    steps == [] || (Enabled(b, s, steps[0]) && Legal(b, Next(s, steps[0]), steps[1..]))
  }

  function Run(s: State, steps: seq<Step>): State
    decreases |steps|
  {
    if steps == [] then s else Run(Next(s, steps[0]), steps[1..])
  }

  function Start(time: int): State {
    State(time, map[], {}, map[], {}, {}, {}, {}, map[], map[])
  }

  lemma {:induction false} RunSound(b: Bounds, s: State, steps: seq<Step>)
    requires Invariant(b, s) && Legal(b, s, steps)
    ensures Invariant(b, Run(s, steps))
    ensures Active in s.keys ==> Active in Run(s, steps).keys
    decreases |steps|
  {
    if steps != [] {
      StoreStep(b, s, steps[0]);
      HandsStep(b, s, steps[0]);
      TokensStep(b, s, steps[0]);
      RunSound(b, Next(s, steps[0]), steps[1..]);
    }
  }

  /** Stored as active or as retired. */
  predicate IsStored(s: State, kid: Kid) {
    (Active in s.keys && s.keys[Active].kid == kid) || Retired(kid) in s.keys
  }

  /** Over every run within the bounds, the key that signed a token is stored,
      or went in a purge by a clock that already read past the token's expiry
      and leeway. Once there is an active key there always is exactly one. */
  lemma SigningKeyOutlivesTokens(b: Bounds, time: int, steps: seq<Step>, token: Token)
    requires Tolerable(b) && Legal(b, Start(time), steps) && token in Run(Start(time), steps).tokens
    ensures
      var s := Run(Start(time), steps);
      && Active in s.keys
      && (IsStored(s, token.kid) || (token.kid in s.purgedAt && (token.exp + LEEWAY) * SECOND < s.purgedAt[token.kid]))
  {
    var s := Run(Start(time), steps);
    RunSound(b, Start(time), steps);
    ActiveOnceUsed(b, Start(time), steps, token);
    assert WasActive(s, token.kid, token.readAt);
    if !IsStored(s, token.kid) {
      assert Gone(b, s, token.kid);
      var d :| Deadline(b, s, token.kid, d) && d < s.purgedAt[token.kid];
      DeadlineCovers(b, token.readAt, s.retiredAt[token.kid], d, token.exp);
    }
  }

  // ---- whoever verifies ----

  /** Purges happened in the past, by clocks ahead of it by no more than the
      skew, and at whole seconds. */
  predicate PurgedPast(b: Bounds, s: State) {
    forall k :: k in s.purgedAt ==>
      s.purgedAt[k] <= s.time + b.skew && s.purgedAt[k] == Seconds(s.purgedAt[k]) * SECOND
  }

  lemma WholeSeconds(clock: int)
    ensures Seconds(clock) * SECOND <= clock && Seconds(Seconds(clock) * SECOND) == Seconds(clock)
  {}

  lemma PurgedPastStep(b: Bounds, s: State, step: Step)
    requires PurgedPast(b, s) && Enabled(b, s, step)
    ensures PurgedPast(b, Next(s, step))
  {
    if step.Purge? {
      WholeSeconds(step.clock);
      var now := Seconds(step.clock) * SECOND;
      forall k | k in PurgedNow(s.keys, now)
        ensures PurgedNow(s.keys, now)[k] == now
      {}
    }
  }

  lemma {:induction false} PurgedPastRun(b: Bounds, s: State, steps: seq<Step>)
    requires PurgedPast(b, s) && Legal(b, s, steps)
    ensures PurgedPast(b, Run(s, steps))
    decreases |steps|
  {
    if steps != [] {
      PurgedPastStep(b, s, steps[0]);
      PurgedPastRun(b, Next(s, steps[0]), steps[1..]);
    }
  }

  /** Tighter, for the skew between a purging clock and a verifying one, and a
      second lost to whole-second clocks. */
  predicate TolerableToAll(b: Bounds) {
    b.load + b.mint + b.rotate + 4 * b.skew <= (RETIRED_KEY_GRACE - REFRESH_INTERVAL - TOKEN_TTL - LEEWAY - 1) * SECOND
  }

  /** A purge past the deadline is past the expiry and leeway on every clock. */
  lemma PurgeIsLate(b: Bounds, readAt: int, retiredAt: int, deadline: int, purgedAt: int, exp: int, reading: int)
    requires TolerableToAll(b) && readAt <= retiredAt && exp <= LatestExpiry(b, readAt)
    requires deadline >= (Seconds(retiredAt - b.rotate - b.skew) + RETIRED_KEY_GRACE) * SECOND
    requires deadline < purgedAt == Seconds(purgedAt) * SECOND && purgedAt - 2 * b.skew <= reading
    ensures exp + LEEWAY < Seconds(reading)
  {
    var late, early := readAt + b.load + REFRESH_INTERVAL * SECOND - 1 + b.mint + b.skew, retiredAt - b.rotate - b.skew;
    assert late - early <= 299 * SECOND - 1 - 2 * b.skew;
    assert (Seconds(late) - Seconds(early)) * SECOND <= late - early + SECOND - 1;
    assert Seconds(purgedAt) >= Seconds(early) + RETIRED_KEY_GRACE + 1;
    assert (Seconds(late) + TOKEN_TTL + LEEWAY + 1) * SECOND <= reading;
  }

  /** While any clock within the skew, a verifier's say, still reads at most a
      token's expiry and leeway, the key that signed it is stored. */
  lemma VerifiersFindKeys(b: Bounds, time: int, steps: seq<Step>, token: Token, reading: int)
    requires TolerableToAll(b) && Legal(b, Start(time), steps) && token in Run(Start(time), steps).tokens
    requires Run(Start(time), steps).time - b.skew <= reading && Seconds(reading) <= token.exp + LEEWAY
    ensures IsStored(Run(Start(time), steps), token.kid)
  {
    var s := Run(Start(time), steps);
    RunSound(b, Start(time), steps);
    PurgedPastRun(b, Start(time), steps);
    assert WasActive(s, token.kid, token.readAt);
    if !IsStored(s, token.kid) {
      assert Gone(b, s, token.kid);
      var d :| Deadline(b, s, token.kid, d) && d < s.purgedAt[token.kid];
      PurgeIsLate(b, token.readAt, s.retiredAt[token.kid], d, s.purgedAt[token.kid], token.exp, reading);
      assert false;
    }
  }

  /** Nothing is in hand, and nothing retired, before there is an active key. */
  predicate NothingYet(s: State) {
    s.loading == {} && s.copies == map[] && s.uses == {} && s.tokens == {}
  }

  lemma {:induction false} ActiveOnceUsed(b: Bounds, s: State, steps: seq<Step>, token: Token)
    requires Invariant(b, s) && Legal(b, s, steps) && token in Run(s, steps).tokens
    requires Active in s.keys || NothingYet(s)
    ensures Active in Run(s, steps).keys
    decreases |steps|
  {
    if steps != [] {
      StoreStep(b, s, steps[0]);
      HandsStep(b, s, steps[0]);
      TokensStep(b, s, steps[0]);
      ActiveOnceUsed(b, Next(s, steps[0]), steps[1..], token);
    }
  }
}
