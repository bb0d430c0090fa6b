/** The reachability state over whole runs. */
module NgSocketTheorems {
  import opened Prelude
  import opened NgSocket
  import opened NgSocketRuns
  import opened NgSocketCookies

  ghost predicate StepAt(run: seq<Socket>, inputs: seq<Input>, k: int) {
    0 <= k < |inputs| < |run| && StepsTo(run[k], inputs[k], run[k + 1])
  }

  /** A boot followed by any inputs: any signed hellos and replies from any addresses, any
      allow-list answers, any clock, any eviction choices. */
  ghost predicate IsRun(me: Id, run: seq<Socket>, inputs: seq<Input>) {
    && |run| == |inputs| + 1 && run[0] == Boot(me)
    && (forall k | 0 <= k < |inputs| :: StepAt(run, inputs, k))
  }

  lemma StepKeeps(s: Socket, i: Input, s': Socket)
    requires IndexInv(s) && CookieInv(s) && StepsTo(s, i, s')
    ensures IndexInv(s') && CookieInv(s') && s'.table.me == s.table.me
  {
    HandleIndex(s, i);
    HandleCookie(s, i);
  }

  lemma BootKeeps(me: Id)
    ensures IndexInv(Boot(me)) && CookieInv(Boot(me)) && Boot(me).table.me == me
  {
  }

  lemma {:induction false} RunKeeps(me: Id, run: seq<Socket>, inputs: seq<Input>, n: nat)
    requires IsRun(me, run, inputs) && n < |run|
    ensures IndexInv(run[n]) && CookieInv(run[n]) && run[n].table.me == me
  {
    if n == 0 {
      BootKeeps(me);
    } else {
      RunKeeps(me, run, inputs, n - 1);
      assert StepAt(run, inputs, n - 1);
      StepKeeps(run[n - 1], inputs[n - 1], run[n]);
    }
  }

  /** Every legal input is possible in every reached state, so the runs are all there are. */
  lemma RunExtends(me: Id, run: seq<Socket>, inputs: seq<Input>, i: Input)
    requires IsRun(me, run, inputs)
    ensures WellFormed(run[|inputs|])
    ensures Legal(run[|inputs|], i) ==> IsRun(me, run + [Handle(run[|inputs|], i)], inputs + [i])
  {
    RunKeeps(me, run, inputs, |inputs|);
    var run', inputs' := run + [Handle(run[|inputs|], i)], inputs + [i];
    if Legal(run[|inputs|], i) {
      forall k | 0 <= k < |inputs'| ensures StepAt(run', inputs', k) {
        if k < |inputs| {
          assert StepAt(run, inputs, k);
          assert run'[k] == run[k] && run'[k + 1] == run[k + 1] && inputs'[k] == inputs[k];
        }
      }
    }
  }

  /** In every run the source sets are disjoint and hold at most five addresses, and the lookup by
      source gives the owner of the address: nothing, or the object, with the id, that the most
      recent HELLO from there was credited to. */
  lemma SourceIndexExact(me: Id, run: seq<Socket>, inputs: seq<Input>, n: nat)
    requires IsRun(me, run, inputs) && n < |run|
    ensures forall r, q, a :: Owns(run[n], r, a) && Owns(run[n], q, a) ==> r == q
    ensures forall r | r in run[n].peers :: |run[n].peers[r].sources| <= 5
    ensures forall r: Ref, a :: FindBySource(run[n], a) == Some(r) <==> Owns(run[n], r, a)
    ensures forall r: Ref, a :: FindBySource(run[n], a) == Some(r) ==>
      r in run[n].peers && MostRecent(run[n].h, a, r, run[n].peers[r].id)
  {
    RunKeeps(me, run, inputs, n);
  }

  /** Every data packet sent directly to `id` goes to an address from which this node accepted,
      earlier, a reply signed by `id`, addressed to this node, and echoing the cookie of a still
      earlier attempt this node made to `id`. */
  lemma DirectOnlyIfVouched(me: Id, run: seq<Socket>, inputs: seq<Input>, n: nat, k: nat)
    requires IsRun(me, run, inputs) && n < |run| && k < |run[n].h| && run[n].h[k].Direct?
    ensures exists i, j :: Answers(run[n].h, i, j, me, run[n].h[k].dest, run[n].h[k].id) && j < k
  {
    RunKeeps(me, run, inputs, n);
    assert DirectAt(run[n].h, k, run[n].h[k].dest, run[n].h[k].id);
    assert Vouched(run[n].h, k, me, run[n].h[k].dest, run[n].h[k].id);
  }

  /** No two attempts share a cookie, and each attempt gets at most one accepted reply. */
  lemma OneReplyPerAttempt(me: Id, run: seq<Socket>, inputs: seq<Input>, n: nat, i: nat, j: nat, k: nat)
    requires IsRun(me, run, inputs) && n < |run| && i < |run[n].h| && j < |run[n].h| && k < |run[n].h|
    requires var h := run[n].h; h[i].Attempt? && h[j].Confirmed? && h[j].reply.cookie == h[i].cookie
    ensures var h := run[n].h; h[k].Attempt? && h[k].cookie == h[i].cookie ==> k == i
    ensures var h := run[n].h; h[k].Confirmed? && h[k].reply.cookie == h[i].cookie ==> k == j
  {
    RunKeeps(me, run, inputs, n);
    var h := run[n].h;
    assert AttemptAt(h, i, h[i].id, h[i].cookie);
    assert ConfirmedAt(h, j, h[i].cookie);
    if h[k].Attempt? && h[k].cookie == h[i].cookie { assert AttemptAt(h, k, h[k].id, h[i].cookie); }
    if h[k].Confirmed? && h[k].reply.cookie == h[i].cookie { assert ConfirmedAt(h, k, h[i].cookie); }
  }
}
