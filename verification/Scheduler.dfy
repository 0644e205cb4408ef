/** The task list and the leader/follower scheduler as objects. The methods do
    the list work of the critical sections; the model state they are checked
    against adds the other threads. */
module Schedulers {
  import opened Wrappers
  import M = SchedulerModel

  class SchedulerList {
    var taskList: seq<M.Unit>

    /** Calls of notify_one so far. */
    var notifies: nat

    constructor ()
      ensures taskList == [] && notifies == 0
    {
      taskList, notifies := [], 0;
    }

    method PushWithNotify(u: M.Unit)
      modifies this
      ensures taskList == old(taskList) + [u] && notifies == old(notifies) + 1
    {
      taskList := taskList + [u];
      notifies := notifies + 1;
    }

    /** std::list::splice: the whole batch moves behind the queue, and the
        caller's list is left empty. One notify for the whole batch. */
    method PushBatchWithNotify(batch: seq<M.Unit>) returns (left: seq<M.Unit>)
      modifies this
      ensures taskList == old(taskList) + batch && left == [] && notifies == old(notifies) + 1
    {
      taskList := taskList + batch;
      left := [];
      notifies := notifies + 1;
    }

    method GetTask() returns (r: Option<M.Unit>)
      modifies this`taskList
      ensures old(taskList) == [] ==> r == None && taskList == []
      ensures old(taskList) != [] ==> r == Some(old(taskList)[0]) && old(taskList) == [r.value] + taskList
    {
      if |taskList| == 0 {
        return None;
      }
      r := Some(taskList[0]);
      taskList := taskList[1..];
    }

    /** std::list::swap: the caller's list and the queue change places. */
    method GetTaskList(list: seq<M.Unit>) returns (all: seq<M.Unit>)
      modifies this`taskList
      ensures all == old(taskList) && taskList == list
    {
      all, taskList := taskList, list;
    }
  }

  class SchedulerLF {
    const workList: SchedulerList
    const reactorMode: bool
    var taskList: seq<M.Unit>

    ghost var started: bool
    ghost var pushed: seq<M.Unit>
    ghost var popped: seq<M.Unit>
    ghost var posted: seq<nat>
    ghost var polled: seq<nat>

    /** The model state as one worker sees it: itself at `pc`, any others as given. */
    ghost function View(workers: map<M.Worker, M.Wpc>): M.State
      reads this, workList
    {
      M.State(workList.taskList, taskList, workers, workList.notifies, started, pushed, popped, posted, polled)
    }

    constructor (reactorMode: bool)
      ensures fresh(workList) && View(map[]) == M.Initial({}) && this.reactorMode == reactorMode
    {
      this.reactorMode := reactorMode;
      workList := new SchedulerList();
      taskList, pushed, popped, posted, polled := [], [], [], [], [];
      started := false;
    }

    /** Pushes the reactor unit, in the mode that has one. */
    method Start(ghost workers: map<M.Worker, M.Wpc>)
      requires !started
      modifies this`pushed, this`started, workList
      ensures View(workers) == if reactorMode then M.Step(old(View(workers)), M.Start) else old(View(workers))
    {
      if reactorMode {
        workList.PushWithNotify(M.Reactor);
        pushed := pushed + [M.Reactor];
        started := true;
      }
    }

    method Post(id: nat, ghost workers: map<M.Worker, M.Wpc>)
      modifies this`pushed, this`posted, workList
      ensures View(workers) == M.Step(old(View(workers)), M.Post(id))
    {
      workList.PushWithNotify(M.Task(id));
      pushed := pushed + [M.Task(id)];
      posted := posted + [id];
    }

    method Gather(batch: seq<nat>, w: M.Worker, ghost workers: map<M.Worker, M.Wpc>)
      requires w in workers && workers[w].Polling?
      modifies this`taskList, this`polled
      ensures View(workers[w := M.Filling]) == M.Step(old(View(workers)), M.Poll(w, batch))
    {
      taskList := taskList + M.Tasks(batch);
      polled := polled + batch;
    }

    method Append(w: M.Worker, ghost workers: map<M.Worker, M.Wpc>)
      requires w in workers && workers[w].Filling?
      modifies this`taskList
      ensures View(workers[w := M.Splicing]) == M.Step(old(View(workers)), M.Fill(w))
    {
      taskList := taskList + [M.Reactor];
    }

    method Splice(w: M.Worker, ghost workers: map<M.Worker, M.Wpc>)
      requires w in workers && workers[w].Splicing?
      modifies this`taskList, this`pushed, workList
      ensures View(workers[w := M.Looping]) == M.Step(old(View(workers)), M.Splice(w))
    {
      pushed := pushed + taskList;
      taskList := workList.PushBatchWithNotify(taskList);
    }

    /** What a worker does with the reactor unit in hand: poll, append the unit
        to the polled batch, and queue the whole. */
    method ReactorFunc(batch: seq<nat>, w: M.Worker, ghost workers: map<M.Worker, M.Wpc>)
      requires w in workers && workers[w].Polling?
      modifies this`taskList, this`pushed, this`polled, workList
      ensures View(workers[w := M.Looping])
           == M.Run(old(View(workers)), [M.Poll(w, batch), M.Fill(w), M.Splice(w)])
      ensures old(taskList) == [] ==>
                var n, q := |old(workList.taskList)|, workList.taskList;
                && |q| == n + |batch| + 1 && q[..n] == old(workList.taskList) && q[n + |batch|] == M.Reactor
                && (forall k :: 0 <= k < |batch| ==> q[n + k] == M.Task(batch[k]))
                && taskList == [] && workList.notifies == old(workList.notifies) + 1
    {
      Gather(batch, w, workers);
      Append(w, workers[w := M.Filling]);
      Splice(w, workers[w := M.Filling][w := M.Splicing]);
      assert workers[w := M.Filling][w := M.Splicing][w := M.Looping] == workers[w := M.Looping];
      M.RunThree(old(View(workers)), M.Poll(w, batch), M.Fill(w), M.Splice(w));
    }

    /** One turn of the worker loop up to the point where it has decided what to
        do: the place in the loop it ends at is the result. */
    method Take(w: M.Worker, ghost workers: map<M.Worker, M.Wpc>) returns (pc: M.Wpc)
      requires w in workers && workers[w].Looping?
      modifies this`popped, workList`taskList
      ensures View(workers[w := pc]) == M.Step(old(View(workers)), M.Take(w))
    {
      var u := workList.GetTask();
      match u
      case None => pc := M.ToWait;
      case Some(unit) =>
        popped := popped + [unit];
        pc := if unit.Reactor? then M.Polling else M.Running(unit.id);
    }
  }
}
