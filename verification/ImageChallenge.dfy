/** The in-memory image challenge store (`pkg/identity/challenge/image.go`).

    An answer digest is represented by the text it is a digest of.  Every operation
    runs under the mutex, but reads its clock before taking it, so the clocks of
    consecutive operations need not be in order. */
module ImageChallenge {
  import opened Types
  import opened Strings

  const TTL := 120_000_000_000 // two minutes, in nanoseconds
  const DEFAULT_MAX_ITEMS := 4096

  datatype Challenge = Challenge(answer: string, expiresAt: int)

  type Limit = n: int | 0 < n witness 1

  type Table = map<string, Challenge>

  function Folded(answer: string): string {
    ToUpper(TrimSpace(answer))
  }

  function Id(random: string): string {
    "cap_" + random
  }

  function Unexpired(t: Table, now: int): Table {
    map id | id in t && t[id].expiresAt > now :: t[id]
  }

  predicate Admits(t: Table, maxItems: Limit, now: int) {
    |Unexpired(t, now)| < maxItems
  }

  function Stored(t: Table, maxItems: Limit, random: string, answer: string, now: int): Table {
    if Admits(t, maxItems, now)
    then Unexpired(t, now)[Id(random) := Challenge(Folded(answer), now + TTL)]
    else Unexpired(t, now)
  }

  predicate UsesUp(id: string, answer: string) {
    TrimSpace(id) != "" && TrimSpace(answer) != ""
  }

  function Removed(t: Table, id: string, answer: string): Table {
    if UsesUp(id, answer) then t - {TrimSpace(id)} else t
  }

  predicate Verifies(t: Table, id: string, answer: string, now: int) {
    && UsesUp(id, answer) && TrimSpace(id) in t
    && t[TrimSpace(id)].expiresAt > now && t[TrimSpace(id)].answer == Folded(answer)
  }

  class ImageProvider {
    var challenges: Table
    const maxItems: Limit

    constructor (limit: int)
      ensures challenges == map[]
      ensures maxItems == if limit <= 0 then DEFAULT_MAX_ITEMS else limit
    {
      challenges := map[];
      maxItems := if limit <= 0 then DEFAULT_MAX_ITEMS else limit;
    }

    method Cleanup(now: int)
      modifies this
      ensures challenges == Unexpired(old(challenges), now)
    {
      var ids := challenges.Keys;
      while ids != {}
        invariant ids <= challenges.Keys
        invariant forall id | id in challenges ::
                    && id in old(challenges) && challenges[id] == old(challenges)[id]
                    && (id in ids || challenges[id].expiresAt > now)
        invariant forall id | id in old(challenges) && id !in challenges :: old(challenges)[id].expiresAt <= now
        decreases |ids|
      {
        var id :| id in ids;
        if challenges[id].expiresAt <= now {
          challenges := challenges - {id};
        }
        ids := ids - {id};
      }
    }

    method Put(answer: string, random: string, now: int) returns (r: Result<(string, int)>)
      modifies this
      ensures challenges == Stored(old(challenges), maxItems, random, answer, now)
      ensures r == if |Unexpired(old(challenges), now)| >= maxItems then Err(ErrHumanChallengeLimitExceeded)
                   else Ok((Id(random), now + TTL))
    {
      var expiresAt := now + TTL;
      Cleanup(now);
      if maxItems > 0 && |challenges| >= maxItems {
        return Err(ErrHumanChallengeLimitExceeded);
      }
      var id := Id(random);
      challenges := challenges[id := Challenge(Folded(answer), expiresAt)];
      return Ok((id, expiresAt));
    }

    method VerifyAndDelete(id: string, answer: string, now: int) returns (ok: bool)
      modifies this
      ensures challenges == Removed(old(challenges), id, answer)
      ensures ok <==> Verifies(old(challenges), id, answer, now)
    {
      var key := TrimSpace(id);
      if key == "" || TrimSpace(answer) == "" {
        return false;
      }
      if key !in challenges {
        assert challenges - {key} == challenges;
        return false;
      }
      var challenge := challenges[key];
      challenges := challenges - {key};
      if challenge.expiresAt <= now {
        return false;
      }
      return challenge.answer == Folded(answer);
    }
  }

  // Whole runs.

  datatype Step =
    | Create(answer: string, random: string, now: int)
    | Verify(id: string, answer: string, now: int)

  function Next(t: Table, maxItems: Limit, step: Step): Table {
    match step
    case Create(answer, random, now) => Stored(t, maxItems, random, answer, now)
    case Verify(id, answer, _) => Removed(t, id, answer)
  }

  /** The table after the first `n` steps. */
  function After(maxItems: Limit, steps: seq<Step>, n: nat): Table
    requires n <= |steps|
  {
    if n == 0 then map[] else Next(After(maxItems, steps, n - 1), maxItems, steps[n - 1])
  }

  /** The table never outgrows its limit. */
  lemma {:induction false} NeverOverfull(maxItems: Limit, steps: seq<Step>, n: nat)
    requires n <= |steps|
    ensures |After(maxItems, steps, n)| <= maxItems
  {
    hide Next;
    if n > 0 {
      NeverOverfull(maxItems, steps, n - 1);
      NextSize(maxItems, After(maxItems, steps, n - 1), steps[n - 1]);
    }
  }

  lemma NextSize(maxItems: Limit, t: Table, step: Step)
    requires |t| <= maxItems
    ensures |Next(t, maxItems, step)| <= maxItems
  {
    hide Unexpired, Folded;
    if step.Create? {
      UnexpiredIsSmaller(t, step.now);
      var u := Unexpired(t, step.now);
      assert u[Id(step.random) := Challenge(Folded(step.answer), step.now + TTL)].Keys == u.Keys + {Id(step.random)};
    } else {
      SubsetSize(Removed(t, step.id, step.answer).Keys, t.Keys);
    }
  }

  lemma UnexpiredIsSmaller(t: Table, now: int)
    ensures |Unexpired(t, now)| <= |t|
  {
    SubsetSize(Unexpired(t, now).Keys, t.Keys);
  }

  /** A creation is refused exactly when the table is full of challenges that its
      clock finds unexpired. */
  lemma RefusedIffFull(maxItems: Limit, steps: seq<Step>, n: nat, now: int)
    requires n <= |steps|
    ensures !Admits(After(maxItems, steps, n), maxItems, now)
       <==> |Unexpired(After(maxItems, steps, n), now)| == maxItems
  {
    NeverOverfull(maxItems, steps, n);
    UnexpiredIsSmaller(After(maxItems, steps, n), now);
  }

  lemma {:induction false} SubsetSize(a: set<string>, b: set<string>)
    requires a <= b
    ensures |a| <= |b|
  {
    if x :| x in a {
      SubsetSize(a - {x}, b - {x});
    }
  }

  /** Step `k` stores a challenge under `id`. */
  predicate Stores(maxItems: Limit, steps: seq<Step>, k: nat, id: string) {
    && k < |steps| && steps[k].Create? && Id(steps[k].random) == id
    && Admits(After(maxItems, steps, k), maxItems, steps[k].now)
  }

  /** Step `k` leaves the challenge `id` that expires at `expiresAt` alone: it is not
      an answer to it, nor a creation that replaces it or finds it expired. */
  predicate Spares(maxItems: Limit, steps: seq<Step>, k: nat, id: string, expiresAt: int)
    requires k < |steps|
  {
    match steps[k]
    case Create(_, _, now) => now < expiresAt && !Stores(maxItems, steps, k, id)
    case Verify(asked, answer, _) => !(TrimSpace(asked) == id != "" && TrimSpace(answer) != "")
  }

  /** The challenge that step `i` stored under `id` is still there after `n` steps. */
  ghost predicate HeldSince(maxItems: Limit, steps: seq<Step>, n: nat, id: string, i: nat) {
    && i < n <= |steps| && Stores(maxItems, steps, i, id)
    && var expiresAt := steps[i].now + TTL;
       forall k | i < k < n :: Spares(maxItems, steps, k, id, expiresAt)
  }

  /** `id` is held after `n` steps exactly if nothing has removed it since it was
      stored, with what it was stored with. */
  ghost predicate HeldIffStored(maxItems: Limit, steps: seq<Step>, n: nat, id: string)
    requires n <= |steps|
  {
    var t := After(maxItems, steps, n);
    && (id in t ==> exists i: nat :: HeldSince(maxItems, steps, n, id, i))
    && forall i: nat | i < n && HeldSince(maxItems, steps, n, id, i) ::
         id in t && t[id] == Challenge(Folded(steps[i].answer), steps[i].now + TTL)
  }

  lemma {:induction false} TableIsExact(maxItems: Limit, steps: seq<Step>, n: nat, id: string)
    requires n <= |steps|
    ensures HeldIffStored(maxItems, steps, n, id)
  {
    if n > 0 {
      TableIsExact(maxItems, steps, n - 1, id);
      StepIsExact(maxItems, steps, n, id);
    }
  }

  lemma StepIsExact(maxItems: Limit, steps: seq<Step>, n: nat, id: string)
    requires 0 < n <= |steps| && HeldIffStored(maxItems, steps, n - 1, id)
    ensures HeldIffStored(maxItems, steps, n, id)
  {
    hide HeldSince, Folded, After, Stores, Spares;
    NextHolds(maxItems, steps, n, id);
    var t := After(maxItems, steps, n);
    if id in t {
      if Stores(maxItems, steps, n - 1, id) {
        HeldByLast(maxItems, steps, n, id, n - 1);
      } else {
        var i: nat :| HeldSince(maxItems, steps, n - 1, id, i);
        HeldLonger(maxItems, steps, n, id, i);
      }
    }
    forall i: nat | i < n && HeldSince(maxItems, steps, n, id, i)
      ensures id in t && t[id] == Challenge(Folded(steps[i].answer), steps[i].now + TTL)
    {
      HeldByLast(maxItems, steps, n, id, i);
      HeldLonger(maxItems, steps, n, id, i);
    }
  }

  lemma HeldLonger(maxItems: Limit, steps: seq<Step>, n: nat, id: string, i: nat)
    requires 0 < n <= |steps|
    ensures i < n - 1 ==>
      (HeldSince(maxItems, steps, n, id, i)
       <==> HeldSince(maxItems, steps, n - 1, id, i) && Spares(maxItems, steps, n - 1, id, steps[i].now + TTL))
    ensures HeldSince(maxItems, steps, n - 1, id, i) ==> i < n - 1
  {
    hide Stores, Spares;
  }

  lemma HeldByLast(maxItems: Limit, steps: seq<Step>, n: nat, id: string, i: nat)
    requires 0 < n <= |steps|
    ensures HeldSince(maxItems, steps, n, id, i) ==> i < n && (i == n - 1 <==> Stores(maxItems, steps, n - 1, id))
    ensures i == n - 1 && Stores(maxItems, steps, n - 1, id) ==> HeldSince(maxItems, steps, n, id, i)
  {
    hide After, Admits;
    if HeldSince(maxItems, steps, n, id, i) && i < n - 1 {
      assert Spares(maxItems, steps, n - 1, id, steps[i].now + TTL);
    }
  }

  /** What one step does to one id. */
  lemma NextHolds(maxItems: Limit, steps: seq<Step>, n: nat, id: string)
    requires 0 < n <= |steps|
    ensures var t, t', step := After(maxItems, steps, n - 1), After(maxItems, steps, n), steps[n - 1];
            if Stores(maxItems, steps, n - 1, id) then
              id in t' && t'[id] == Challenge(Folded(step.answer), step.now + TTL)
            else
              && (id in t' <==> id in t && Spares(maxItems, steps, n - 1, id, t[id].expiresAt))
              && (id in t' ==> t'[id] == t[id])
  {
    AfterNext(maxItems, steps, n);
    hide After;
  }

  lemma AfterNext(maxItems: Limit, steps: seq<Step>, n: nat)
    requires 0 < n <= |steps|
    ensures After(maxItems, steps, n) == Next(After(maxItems, steps, n - 1), maxItems, steps[n - 1])
  {}

  /** The answer given at step `j` is accepted. */
  predicate Succeeds(maxItems: Limit, steps: seq<Step>, j: nat) {
    && j < |steps| && steps[j].Verify?
    && Verifies(After(maxItems, steps, j), steps[j].id, steps[j].answer, steps[j].now)
  }

  /** The same letters between white space, in either case. */
  predicate SameAnswer(a: string, b: string) {
    var s, t := TrimSpace(a), TrimSpace(b);
    |s| == |t| && forall i :: 0 <= i < |s| ==> s[i] == t[i] || LowerChar(s[i]) == LowerChar(t[i])
  }

  lemma FoldsCase(a: string, b: string)
    ensures Folded(a) == Folded(b) <==> SameAnswer(a, b)
  {
    var s, t := TrimSpace(a), TrimSpace(b);
    forall i | 0 <= i < |s| && i < |t|
      ensures UpperChar(s[i]) == UpperChar(t[i]) <==> s[i] == t[i] || LowerChar(s[i]) == LowerChar(t[i])
    {
      CaseRoundTrip(s[i]);
      CaseRoundTrip(t[i]);
    }
    assert Folded(a) == Folded(b) ==> forall i :: 0 <= i < |s| ==> ToUpper(s)[i] == ToUpper(t)[i];
  }

  /** An answer is accepted exactly if it is the one a still unanswered challenge of
      that id was stored with, up to case and outer white space, and in time. */
  lemma SucceedsIffAnswered(maxItems: Limit, steps: seq<Step>, j: nat)
    requires j < |steps| && steps[j].Verify?
    ensures Succeeds(maxItems, steps, j)
       <==> TrimSpace(steps[j].id) != "" && TrimSpace(steps[j].answer) != ""
            && exists i: nat :: HeldSince(maxItems, steps, j, TrimSpace(steps[j].id), i)
                 && SameAnswer(steps[i].answer, steps[j].answer) && steps[j].now < steps[i].now + TTL
  {
    forall i: nat | i < |steps| && steps[i].Create?
      ensures SameAnswer(steps[i].answer, steps[j].answer) <==> Folded(steps[i].answer) == Folded(steps[j].answer)
    {
      FoldsCase(steps[i].answer, steps[j].answer);
    }
    hide SameAnswer;
    TableIsExact(maxItems, steps, j, TrimSpace(steps[j].id));
    hide After, Folded, HeldSince;
  }

  /** Any answer to an id, right or wrong, uses it up: an answer is accepted later
      only if the id was stored again in between. */
  lemma AnsweredOnce(maxItems: Limit, steps: seq<Step>, i: nat, j: nat)
    returns (k: nat)
    requires i < j && Succeeds(maxItems, steps, j)
    requires steps[i].Verify? && TrimSpace(steps[i].id) != "" && TrimSpace(steps[i].answer) != ""
    requires TrimSpace(steps[i].id) == TrimSpace(steps[j].id)
    ensures i < k < j && Stores(maxItems, steps, k, TrimSpace(steps[j].id))
  {
    assert j < |steps| && steps[j].Verify?;
    hide Succeeds, Folded, Stores, TrimSpace, UsesUp, SameAnswer, After, Admits;
    SucceedsIffAnswered(maxItems, steps, j);
    var id := TrimSpace(steps[j].id);
    k :| HeldSince(maxItems, steps, j, id, k);
    assert k < i ==> !Spares(maxItems, steps, i, id, steps[k].now + TTL);
  }

  /** An id that was handed out once is answered with success at most once. */
  lemma SucceedsOnce(maxItems: Limit, steps: seq<Step>, i: nat, j: nat)
    requires Succeeds(maxItems, steps, i) && Succeeds(maxItems, steps, j)
    requires TrimSpace(steps[i].id) == TrimSpace(steps[j].id)
    requires forall a: nat, b: nat ::
               Stores(maxItems, steps, a, TrimSpace(steps[i].id)) && Stores(maxItems, steps, b, TrimSpace(steps[i].id))
               ==> a == b
    ensures i == j
  {
    hide TrimSpace, Folded, Stores, After;
    if i != j {
      var first, last := if i < j then i else j, if i < j then j else i;
      var again := AnsweredOnce(maxItems, steps, first, last);
      SucceedsIffAnswered(maxItems, steps, first);
    }
  }
}
