/** The safe unit as an object, run by one thread at a time: the critical
    sections of `SafeUnitModel` as methods, and `DoComplete` as the loop over a
    batch whose closures may post to the same unit. */
module SafeUnits {
  import opened Wrappers
  import M = SafeUnitModel

  /** Everything the closures of a batch post, in order. */
  function Spawned(spawn: M.Closure -> seq<M.Closure>, batch: seq<M.Closure>): seq<M.Closure> {
    if batch == [] then []
    else Spawned(spawn, batch[..|batch| - 1]) + spawn(batch[|batch| - 1])
  }

  class SafeUnit {
    var access: bool
    var cancelFlag: bool
    var accessList: seq<M.Closure>
    var waitList: seq<M.Closure>

    /** Tokens of this unit handed to the scheduler and not yet taken. */
    var tokens: nat

    /** What each closure posts to this unit when it runs. */
    const spawn: M.Closure -> seq<M.Closure>

    ghost var accepted: seq<M.Closure>
    ghost var executed: seq<M.Closure>
    ghost var cancelAt: Option<nat>

    /** The model state with every thread outside the unit. */
    ghost function View(): M.State
      reads this
    {
      M.State(access, cancelFlag, None, accessList, waitList, tokens, map[], accepted, executed, cancelAt)
    }

    ghost predicate Valid()
      reads this
    {
      && accepted == executed + accessList + waitList
      && (!access ==> accessList == [] && waitList == [] && tokens == 0)
      && tokens <= 1
      && (cancelFlag <==> cancelAt.Some?)
      && (cancelAt.Some? ==> |accepted| == cancelAt.value + 1)
    }

    constructor (spawn: M.Closure -> seq<M.Closure>)
      ensures Valid() && View() == M.Initial() && this.spawn == spawn
    {
      this.spawn := spawn;
      access, cancelFlag := false, false;
      accessList, waitList, tokens := [], [], 0;
      accepted, executed, cancelAt := [], [], None;
    }

    method PostWithoutLock(c: M.Closure)
      modifies this`access, this`accessList, this`waitList, this`tokens, this`accepted
      ensures View() == M.Push(old(View()), c).(accepted := old(accepted) + [c],
                                                tokens := if old(access) then old(tokens) else old(tokens) + 1)
    {
      accepted := accepted + [c];
      if !access {
        access := true;
        accessList := accessList + [c];
        tokens := tokens + 1;
      } else {
        waitList := waitList + [c];
      }
    }

    method Post(c: M.Closure)
      modifies this`access, this`accessList, this`waitList, this`tokens, this`accepted
      ensures View() == M.PostWhole(old(View()), c, false)
      ensures old(Valid()) ==> Valid()
    {
      if cancelFlag {
        return;
      }
      ghost var e, a, w := executed, accessList, waitList;
      PostWithoutLock(c);
      assert e + a + (w + [c]) == (e + a + w) + [c];
      assert e + ([] + [c]) + [] == (e + [] + []) + [c];
    }

    method CancelUnits(c: M.Closure)
      requires Valid()
      modifies this
      ensures Valid() && View() == M.PostWhole(old(View()), c, true)
    {
      if cancelFlag {
        return;
      }
      ghost var e, a, w := executed, accessList, waitList;
      cancelAt := Some(|accepted|);
      PostWithoutLock(c);
      cancelFlag := true;
      assert e + a + (w + [c]) == (e + a + w) + [c];
      assert e + ([] + [c]) + [] == (e + [] + []) + [c];
    }

    /** The locked hand-off at the end of a batch. */
    method HandOff()
      requires access
      modifies this`access, this`accessList, this`waitList, this`tokens
      ensures View() == M.Exchange(old(View())).(tokens := if old(waitList) == [] then old(tokens) else old(tokens) + 1)
    {
      accessList, waitList := waitList, accessList;
      if |accessList| == 0 {
        access := false;
      } else {
        tokens := tokens + 1;
      }
    }

    /** Runs one closure, which posts whatever it posts. `rest` is what the
        batch still holds behind it. */
    method RunClosure(c: M.Closure, ghost rest: seq<M.Closure>)
      requires access && accepted == executed + ([c] + rest) + waitList
      modifies this`executed, this`waitList, this`accepted, this`access, this`accessList, this`tokens
      ensures access && tokens == old(tokens) && accessList == old(accessList)
      ensures executed == old(executed) + [c]
      ensures accepted == executed + rest + waitList
      ensures waitList == old(waitList) + if cancelFlag then [] else spawn(c)
      ensures cancelFlag ==> accepted == old(accepted)
    {
      executed := executed + [c];
      assert old(executed) + ([c] + rest) == executed + rest;
      var posts := spawn(c);
      var j := 0;
      while j < |posts|
        invariant 0 <= j <= |posts|
        invariant access && tokens == old(tokens) && accessList == old(accessList)
        invariant executed == old(executed) + [c]
        invariant accepted == executed + rest + waitList
        invariant waitList == old(waitList) + if cancelFlag then [] else posts[..j]
        invariant cancelFlag ==> accepted == old(accepted)
      {
        assert executed + rest + (waitList + [posts[j]]) == (executed + rest + waitList) + [posts[j]];
        assert old(waitList) + posts[..j] + [posts[j]] == old(waitList) + posts[..j + 1];
        Post(posts[j]);
        j := j + 1;
      }
      assert posts[..j] == posts;
    }

    /** Runs one batch for a thread that has taken the unit's token. The batch is
        what accessList held; what its closures post lands behind what was
        already waiting, and the unit asks for another turn exactly if there is
        any. */
    method DoComplete()
      requires Valid() && access && tokens == 0
      modifies this
      ensures Valid()
      ensures executed == old(executed) + old(accessList)
      ensures waitList == []
      ensures accessList == old(waitList) + if cancelFlag then [] else Spawned(spawn, old(accessList))
      ensures access == (accessList != []) && tokens == (if access then 1 else 0)
      ensures cancelFlag == old(cancelFlag)
    {
      var runList: seq<M.Closure> := [];
      accessList, runList := runList, accessList;
      ghost var waiting := waitList;
      var k := 0;
      while k < |runList|
        invariant 0 <= k <= |runList|
        invariant access && tokens == 0 && accessList == []
        invariant cancelFlag == old(cancelFlag) && cancelAt == old(cancelAt)
        invariant executed == old(executed) + runList[..k]
        invariant accepted == executed + runList[k..] + waitList
        invariant waitList == waiting + if cancelFlag then [] else Spawned(spawn, runList[..k])
        invariant cancelFlag ==> accepted == old(accepted)
      {
        assert runList[k..] == [runList[k]] + runList[k + 1..];
        assert runList[..k + 1] == runList[..k] + [runList[k]];
        assert runList[..k + 1][..k] == runList[..k];
        assert (waiting + Spawned(spawn, runList[..k])) + spawn(runList[k])
            == waiting + (Spawned(spawn, runList[..k]) + spawn(runList[k]));
        RunClosure(runList[k], runList[k + 1..]);
        k := k + 1;
      }
      assert runList[..k] == runList;
      HandOff();
    }
  }
}
