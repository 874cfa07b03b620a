/** The confirmation tokens of server/src/switch_mcp/guards.py: `require_confirmation` and the
    `_pending` table.

    The clock, the token a call would make and the environment override are parameters of each call.
    Message texts are not modelled. */
module Guards {
  import opened Options

  const TOKEN_TTL_SECONDS := 300.0

  datatype Entry = Entry(detail: string, expiry: real)

  type Table = map<string, Entry>

  /** A call of `require_confirmation`: `now` is the clock, `token` what `_token_for` returns, and
      `override` whether SWITCH_MCP_ALLOW_DESTRUCTIVE is set. */
  datatype Call = Call(
    operation: string,
    detail: string,
    confirm: Option<string>,
    now: real,
    token: string,
    override: bool
  )

  /** A normal return, or which refusal is raised. */
  datatype Outcome = Proceed | Unknown(presented: string) | Mismatch(recorded: string) | Issued(token: string)

  function Live(pending: Table, now: real): Table {
    map t | t in pending && pending[t].expiry >= now :: pending[t]
  }

  datatype Step = Step(pending: Table, outcome: Outcome)

  function Require(pending: Table, c: Call): Step {
    if c.override then Step(pending, Proceed)
    else
      var live := Live(pending, c.now);
      if c.confirm == None || c.confirm.value == ""
      then Step(live[c.token := Entry(c.detail, c.now + TOKEN_TTL_SECONDS)], Issued(c.token))
      else if c.confirm.value !in live then Step(live, Unknown(c.confirm.value))
      else if live[c.confirm.value].detail != c.detail then Step(live, Mismatch(live[c.confirm.value].detail))
      else Step(live - {c.confirm.value}, Proceed)
  }

  /** A token is bound to its effect only: under which name the operation is called does not matter. */
  lemma OperationIgnored(pending: Table, c: Call, operation: string)
    ensures Require(pending, c.(operation := operation)) == Require(pending, c)
  {
  }

  class Guard {
    var pending: Table

    constructor ()
      ensures pending == map[]
    {
      pending := map[];
    }

    /** The purge at the head of `require_confirmation`. */
    method Purge(now: real)
      modifies this
      ensures pending == Live(old(pending), now)
    {
      var toks := pending.Keys;
      while toks != {}
        invariant toks <= pending.Keys <= old(pending).Keys
        invariant forall t :: t in pending ==> pending[t] == old(pending)[t]
        invariant forall t :: t in old(pending) && t !in toks ==> (t in pending <==> old(pending)[t].expiry >= now)
        decreases |toks|
      {
        var t :| t in toks;
        if pending[t].expiry < now {
          pending := pending - {t};
        }
        toks := toks - {t};
      }
    }

    method RequireConfirmation(c: Call) returns (outcome: Outcome)
      modifies this
      ensures Step(pending, outcome) == Require(old(pending), c)
    {
      if c.override { return Proceed; }
      Purge(c.now);
      if c.confirm != None && c.confirm.value != "" {
        if c.confirm.value !in pending { return Unknown(c.confirm.value); }
        var entry := pending[c.confirm.value];
        if entry.detail != c.detail { return Mismatch(entry.detail); }
        pending := pending - {c.confirm.value};
        return Proceed;
      }
      pending := pending[c.token := Entry(c.detail, c.now + TOKEN_TTL_SECONDS)];
      return Issued(c.token);
    }
  }

  // ------------------------------------------------------------------------------- whole runs

  /** The table after the first `n` calls. */
  function After(calls: seq<Call>, n: nat): Table
    requires n <= |calls|
  {
    if n == 0 then map[] else Require(After(calls, n - 1), calls[n - 1]).pending
  }

  function OutcomeAt(calls: seq<Call>, i: nat): Outcome
    requires i < |calls|
  {
    Require(After(calls, i), calls[i]).outcome
  }

  predicate IssuedAt(calls: seq<Call>, j: nat, t: string)
    requires j < |calls|
  {
    OutcomeAt(calls, j) == Issued(t)
  }

  /** The i-th call proceeds on the strength of token `t`. */
  predicate ConsumedAt(calls: seq<Call>, i: nat, t: string)
    requires i < |calls|
  {
    OutcomeAt(calls, i) == Proceed && !calls[i].override && calls[i].confirm == Some(t)
  }

  predicate MonotoneClock(calls: seq<Call>) {
    forall i, j :: 0 <= i < j < |calls| ==> calls[i].now <= calls[j].now
  }

  /** No token is issued twice. */
  ghost predicate FreshTokens(calls: seq<Call>) {
    forall i: nat, j: nat, t :: i < j < |calls| && IssuedAt(calls, i, t) ==> !IssuedAt(calls, j, t)
  }

  /** Token `t` of refusal `j` can still be used when `n` calls were made. */
  predicate Usable(calls: seq<Call>, n: nat, t: string, j: nat)
    requires n <= |calls|
  {
    && j < n && IssuedAt(calls, j, t)
    && forall k :: j < k < n ==>
         !ConsumedAt(calls, k, t) && (calls[k].override || calls[k].now <= calls[j].now + 300.0)
  }

  ghost predicate TableExact(calls: seq<Call>, n: nat, t: string)
    requires n <= |calls|
  {
    && (t in After(calls, n) <==> exists j: nat :: Usable(calls, n, t, j))
    && forall j: nat :: Usable(calls, n, t, j) ==>
         t in After(calls, n) && After(calls, n)[t] == Entry(calls[j].detail, calls[j].now + TOKEN_TTL_SECONDS)
  }

  lemma UsableStep(calls: seq<Call>, n: nat, t: string, j: nat)
    requires n < |calls| && j < n
    ensures Usable(calls, n + 1, t, j)
            <==> && Usable(calls, n, t, j) && !ConsumedAt(calls, n, t)
                 && (calls[n].override || calls[n].now <= calls[j].now + TOKEN_TTL_SECONDS)
  {
    hide OutcomeAt;
  }

  lemma UsableIssued(calls: seq<Call>, n: nat, t: string)
    requires n < |calls|
    ensures Usable(calls, n + 1, t, n) <==> IssuedAt(calls, n, t)
    ensures FreshTokens(calls) && IssuedAt(calls, n, t) ==> forall j: nat :: !Usable(calls, n, t, j)
  {
    hide OutcomeAt, IssuedAt;
  }

  /** What one call does to the entry of one token. */
  lemma TableStep(calls: seq<Call>, n: nat, t: string)
    requires n < |calls|
    ensures var before, after, c := After(calls, n), After(calls, n + 1), calls[n];
            && (t in after <==> || IssuedAt(calls, n, t)
                                || (t in before && !ConsumedAt(calls, n, t) && (c.override || c.now <= before[t].expiry)))
            && (t in after ==> after[t] == if IssuedAt(calls, n, t) then Entry(c.detail, c.now + TOKEN_TTL_SECONDS)
                                           else if t in before then before[t] else after[t])
  {
    assert After(calls, n + 1) == Require(After(calls, n), calls[n]).pending;
    hide After;
  }

  /** The table holds exactly the tokens that were issued, not used and not expired since. */
  lemma {:induction false} TableIsHistory(calls: seq<Call>, n: nat, t: string)
    requires n <= |calls| && FreshTokens(calls)
    ensures TableExact(calls, n, t)
  {
    hide OutcomeAt, After, Require, IssuedAt, ConsumedAt, Usable, FreshTokens;
    if n == 0 {
      NothingAtFirst(calls, t);
    } else {
      var m := n - 1;
      TableIsHistory(calls, m, t);
      TableStep(calls, m, t);
      UsableIssued(calls, m, t);
      UsableEarlier(calls, n, t);
      UsableEarlier(calls, m, t);
      forall j: nat | j < m
        ensures Usable(calls, n, t, j)
                <==> && Usable(calls, m, t, j) && !ConsumedAt(calls, m, t)
                     && (calls[m].override || calls[m].now <= calls[j].now + TOKEN_TTL_SECONDS)
      {
        UsableStep(calls, m, t, j);
      }
    }
  }

  lemma NothingAtFirst(calls: seq<Call>, t: string)
    ensures TableExact(calls, 0, t)
  {
  }

  lemma UsableEarlier(calls: seq<Call>, n: nat, t: string)
    requires n <= |calls|
    ensures forall j: nat :: Usable(calls, n, t, j) ==> j < n
  {
    hide ConsumedAt, IssuedAt;
  }

  /** Refusal `j` issued `t` for the effect of call `i`, at most 300 s before, and `t` was not used since. */
  predicate Grants(calls: seq<Call>, j: nat, i: nat, t: string)
    requires i < |calls|
  {
    && j < i && IssuedAt(calls, j, t)
    && calls[j].detail == calls[i].detail
    && calls[j].now <= calls[i].now <= calls[j].now + 300.0
    && forall k :: j < k < i ==> !ConsumedAt(calls, k, t)
  }

  lemma GrantsUsable(calls: seq<Call>, i: nat, t: string, j: nat)
    requires i < |calls| && MonotoneClock(calls)
    ensures Grants(calls, j, i, t)
            <==> && Usable(calls, i, t, j) && calls[j].detail == calls[i].detail
                 && calls[i].now <= calls[j].now + TOKEN_TTL_SECONDS
  {
    hide IssuedAt, ConsumedAt;
  }

  /** Exactly when a call that is not overridden proceeds, in terms of the calls before it. */
  lemma ProceedsExactly(calls: seq<Call>, i: nat)
    requires i < |calls| && !calls[i].override
    requires MonotoneClock(calls) && FreshTokens(calls)
    ensures OutcomeAt(calls, i) == Proceed
            <==> && calls[i].confirm != None && calls[i].confirm.value != ""
                 && exists j: nat :: Grants(calls, j, i, calls[i].confirm.value)
  {
    if calls[i].confirm != None && calls[i].confirm.value != "" {
      var t := calls[i].confirm.value;
      ProceedsOnEntry(calls, i, t);
      hide OutcomeAt, After, Usable, Grants, FreshTokens, MonotoneClock;
      TableIsHistory(calls, i, t);
      forall j: nat
        ensures Grants(calls, j, i, t)
                <==> && Usable(calls, i, t, j) && calls[j].detail == calls[i].detail
                     && calls[i].now <= calls[j].now + TOKEN_TTL_SECONDS
      {
        GrantsUsable(calls, i, t, j);
      }
      UsableEarlier(calls, i, t);
      if OutcomeAt(calls, i) == Proceed {
        var j: nat :| Usable(calls, i, t, j);
        assert Grants(calls, j, i, t);
      }
    }
  }

  lemma ProceedsOnEntry(calls: seq<Call>, i: nat, t: string)
    requires i < |calls| && !calls[i].override && calls[i].confirm == Some(t) && t != ""
    ensures OutcomeAt(calls, i) == Proceed
            <==> && t in After(calls, i) && After(calls, i)[t].detail == calls[i].detail
                 && calls[i].now <= After(calls, i)[t].expiry
  {
    hide After;
  }

  ghost predicate Run(calls: seq<Call>) {
    MonotoneClock(calls) && FreshTokens(calls)
  }

  predicate Confirmed(calls: seq<Call>, i: nat) {
    i < |calls| && !calls[i].override && OutcomeAt(calls, i) == Proceed
  }

  /** The refusal that let call `i` proceed. */
  ghost function RefusalOf(calls: seq<Call>, i: nat): (j: nat)
    requires Run(calls) && Confirmed(calls, i)
    ensures calls[i].confirm != None && Grants(calls, j, i, calls[i].confirm.value)
  {
    ProceedsExactly(calls, i);
    var j: nat :| Grants(calls, j, i, calls[i].confirm.value);
    j
  }

  /** Two calls never proceed on the strength of one refusal. */
  lemma RefusalsDistinct(calls: seq<Call>, i1: nat, i2: nat)
    requires Run(calls) && i1 < i2 && Confirmed(calls, i1) && Confirmed(calls, i2)
    ensures RefusalOf(calls, i1) != RefusalOf(calls, i2)
  {
    hide OutcomeAt;
    var j := RefusalOf(calls, i1);
    assert ConsumedAt(calls, i1, calls[i1].confirm.value);
    if j == RefusalOf(calls, i2) {
      SameToken(calls, i1, i2);
    }
  }

  lemma SameToken(calls: seq<Call>, i1: nat, i2: nat)
    requires Run(calls) && Confirmed(calls, i1) && Confirmed(calls, i2)
    requires RefusalOf(calls, i1) == RefusalOf(calls, i2)
    ensures calls[i1].confirm == calls[i2].confirm
  {
    hide OutcomeAt;
  }

  // ----------------------------------------------------------------------------- conservation

  function TokensFor(p: Table, detail: string): set<string> {
    set t | t in p && p[t].detail == detail
  }

  function Purged(p: Table, now: real, detail: string): set<string> {
    set t | t in p && p[t].detail == detail && p[t].expiry < now
  }

  /** Tokens for `detail` that the i-th call purges as expired. */
  function PurgedAt(calls: seq<Call>, i: nat, detail: string): set<string>
    requires i < |calls|
  {
    if calls[i].override then {} else Purged(After(calls, i), calls[i].now, detail)
  }

  function IssuedFor(calls: seq<Call>, n: nat, detail: string): nat
    requires n <= |calls|
  {
    if n == 0 then 0
    else IssuedFor(calls, n - 1, detail)
         + if calls[n - 1].detail == detail && OutcomeAt(calls, n - 1).Issued? then 1 else 0
  }

  function ConsumedFor(calls: seq<Call>, n: nat, detail: string): nat
    requires n <= |calls|
  {
    if n == 0 then 0
    else ConsumedFor(calls, n - 1, detail)
         + if calls[n - 1].detail == detail && Confirmed(calls, n - 1) then 1 else 0
  }

  function ExpiredFor(calls: seq<Call>, n: nat, detail: string): nat
    requires n <= |calls|
  {
    if n == 0 then 0 else ExpiredFor(calls, n - 1, detail) + |PurgedAt(calls, n - 1, detail)|
  }

  /** Every token issued for an effect was used, has been purged, or is still in the table. */
  lemma {:induction false} Conservation(calls: seq<Call>, n: nat, detail: string)
    requires n <= |calls| && FreshTokens(calls)
    ensures IssuedFor(calls, n, detail)
            == ConsumedFor(calls, n, detail) + ExpiredFor(calls, n, detail) + |TokensFor(After(calls, n), detail)|
  {
    hide After, OutcomeAt, PurgedAt, TokensFor, Confirmed, FreshTokens;
    if n == 0 {
      EmptyTable(calls, detail);
    } else {
      Conservation(calls, n - 1, detail);
      TokensStep(calls, n - 1, detail);
    }
  }

  lemma EmptyTable(calls: seq<Call>, detail: string)
    ensures TokensFor(After(calls, 0), detail) == {}
  {
  }

  lemma NotInTable(calls: seq<Call>, n: nat)
    requires n < |calls| && FreshTokens(calls) && OutcomeAt(calls, n).Issued?
    ensures calls[n].token !in After(calls, n) && OutcomeAt(calls, n).token == calls[n].token
  {
    hide After, Usable, FreshTokens;
    var t := calls[n].token;
    TableIsHistory(calls, n, t);
    UsableIssued(calls, n, t);
  }

  lemma TokensStep(calls: seq<Call>, n: nat, detail: string)
    requires n < |calls| && FreshTokens(calls)
    ensures |TokensFor(After(calls, n + 1), detail)| + |PurgedAt(calls, n, detail)|
            + (if calls[n].detail == detail && Confirmed(calls, n) then 1 else 0)
            == |TokensFor(After(calls, n), detail)|
               + (if calls[n].detail == detail && OutcomeAt(calls, n).Issued? then 1 else 0)
  {
    var c, before := calls[n], After(calls, n);
    assert After(calls, n + 1) == Require(before, c).pending;
    if OutcomeAt(calls, n).Issued? { NotInTable(calls, n); }
    hide After, FreshTokens, TokensFor, Live;
    if !c.override {
      LiveSplit(before, c.now, detail);
      RequireCounts(before, c, detail);
    }
  }

  lemma LiveSplit(p: Table, now: real, detail: string)
    ensures |TokensFor(p, detail)| == |TokensFor(Live(p, now), detail)| + |Purged(p, now, detail)|
  {
    assert TokensFor(p, detail) == TokensFor(Live(p, now), detail) + Purged(p, now, detail);
  }

  lemma RequireCounts(p: Table, c: Call, detail: string)
    requires !c.override && (Require(p, c).outcome.Issued? ==> c.token !in p)
    ensures var s := Require(p, c);
            |TokensFor(s.pending, detail)| + (if c.detail == detail && s.outcome == Proceed then 1 else 0)
            == |TokensFor(Live(p, c.now), detail)| + (if c.detail == detail && s.outcome.Issued? then 1 else 0)
  {
    hide TokensFor, Live;
    var live := Live(p, c.now);
    LiveOnly(p, c.now);
    match Require(p, c).outcome
    case Proceed => CountRemoved(live, c.confirm.value, detail);
    case Issued(t) => CountInserted(live, t, Entry(c.detail, c.now + TOKEN_TTL_SECONDS), detail);
    case _ =>
  }

  lemma LiveOnly(p: Table, now: real)
    ensures forall t :: t in Live(p, now) ==> t in p
  {
  }

  lemma CountInserted(p: Table, t: string, e: Entry, detail: string)
    requires t !in p
    ensures |TokensFor(p[t := e], detail)| == |TokensFor(p, detail)| + if e.detail == detail then 1 else 0
  {
    var kept := TokensFor(p, detail);
    assert TokensFor(p[t := e], detail) == if e.detail == detail then kept + {t} else kept;
  }

  lemma CountRemoved(p: Table, t: string, detail: string)
    requires t in p
    ensures |TokensFor(p - {t}, detail)| == |TokensFor(p, detail)| - if p[t].detail == detail then 1 else 0
  {
    var kept := TokensFor(p, detail);
    assert TokensFor(p - {t}, detail) == if p[t].detail == detail then kept - {t} else kept;
  }
}
