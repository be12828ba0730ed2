/** The slot operations and one round of the streaming loop, as the server performs them. */
module WalsenderServer {
  import opened Wrappers
  import opened Walsender

  class Server {
    var history: seq<Frame>
    var base: nat
    var end: nat
    var slots: map<string, Slot>
    var sessions: map<nat, Session>

    ghost function Now(): State
      reads this
    {
      State(history, base, end, slots, sessions)
    }

    ghost predicate Valid()
      reads this
    {
      Inv(Now())
    }

    constructor ()
      ensures Valid() && Now() == EMPTY
    {
      history, base, end, slots, sessions := [], 0, 0, map[], map[];
    }

    /** A transaction commits; an empty frame changes nothing. */
    method Commit(lines: seq<string>, size: nat)
      requires Valid()
      modifies this`history, this`end
      ensures Valid() && Now() == Step(old(Now()), Event.Commit(lines, size))
    {
      hide Inv;
      StepKeepsInv(Now(), Event.Commit(lines, size));
      if size > 0 {
        history := history + [Frame(end, lines)];
        end := end + size;
      }
    }

    /** The image replaces the log so far, whatever the slots have confirmed. */
    method Checkpoint()
      requires Valid()
      modifies this`base
      ensures Valid() && Now() == CheckpointStep(old(Now()))
    {
      hide Inv;
      StepKeepsInv(Now(), Event.Checkpoint);
      base := end;
    }

    /** Returns the consistent point of the new slot. */
    method CreateSlot(name: string, slotType: string, plugin: string) returns (r: Result<nat, SlotError>)
      requires Valid()
      modifies this`slots
      ensures Valid() && Now() == CreateStep(old(Now()), name, slotType, plugin)
      ensures r == match CreateCheck(old(Now()), name, slotType, plugin)
                   case Some(e) => Err(e)
                   case None => Ok(end)
    {
      hide Inv;
      StepKeepsInv(Now(), Create(name, slotType, plugin));
      if !ValidSlotName(name) { return Err(InvalidName); }
      if slotType != "logical" && slotType != "physical" { return Err(InvalidType); }
      if slotType == "logical" && plugin != PLUGIN { return Err(UnknownPlugin); }
      if name in slots { return Err(AlreadyExists); }
      var restart := end;
      slots := slots[name := Slot(if slotType == "logical" then plugin else "", slotType, restart, restart, false)];
      return Ok(restart);
    }

    method DropSlot(name: string) returns (r: Option<SlotError>)
      requires Valid()
      modifies this`slots
      ensures Valid() && Now() == DropStep(old(Now()), name) && r == DropCheck(old(Now()), name)
    {
      hide Inv;
      StepKeepsInv(Now(), Drop(name));
      if name !in slots { return Some(DoesNotExist); }
      if slots[name].active { return Some(IsActive); }
      slots := slots - {name};
      return None;
    }

    /** Activate the slot and choose where to stream from. */
    method StartSession(id: nat, name: string, startLsn: nat) returns (r: Option<SlotError>)
      requires Valid() && id !in sessions
      modifies this`slots, this`sessions
      ensures Valid() && Now() == StartStep(old(Now()), id, name, startLsn) && r == StartCheck(old(Now()), name)
    {
      hide Inv;
      StepKeepsInv(Now(), Start(id, name, startLsn));
      if name !in slots { return Some(DoesNotExist); }
      var slot := slots[name];
      if slot.active { return Some(IsActive); }
      if slot.slotType != "logical" { return Some(NotLogical); }
      slots := slots[name := slot.(active := true)];
      var next := if startLsn < slot.confirmedLsn then slot.confirmedLsn else startLsn;
      sessions := sessions[id := Session(name, next, next, [], [], {})];
      return None;
    }

    /** Read the retained log from `lsn` on, skipping older frames. */
    method ReadFramesSince(lsn: nat) returns (r: seq<Frame>)
      ensures r == FramesSince(history, Max(lsn, base))
    {
      r := [];
      var log, i := history, 0;
      ghost var from := Max(lsn, base);
      hide FramesSince;
      FramesSinceNil(from);
      assert log[0..] == log;
      while i < |log|
        invariant 0 <= i <= |log|
        invariant r + FramesSince(log[i..], from) == FramesSince(log, from)
      {
        FramesSinceUnfold(log, i, from);
        if base <= log[i].lsn && lsn <= log[i].lsn {
          r := r + [log[i]];
        }
        i := i + 1;
      }
      assert log[i..] == [];
    }

    /** The messages of a round, and where it leaves the session. */
    method SendFrames(frames: seq<Frame>, walEnd: nat, start: nat) returns (next: nat, out: seq<Message>)
      ensures out == AllMessages(frames, walEnd) && next == NextAfter(frames, walEnd, start)
    {
      hide FrameMessages;
      next, out := start, [];
      var i := 0;
      assert frames[0..] == frames;
      while i < |frames|
        invariant 0 <= i <= |frames|
        invariant NextAfter(frames[i..], walEnd, next) == NextAfter(frames, walEnd, start)
        invariant out + AllMessages(frames[i..], walEnd) == AllMessages(frames, walEnd)
      {
        ghost var rest := frames[i..];
        assert rest[0] == frames[i] && rest[1..] == frames[i + 1..];
        var frameEnd := if i + 1 < |frames| then frames[i + 1].lsn else walEnd;
        out := out + FrameMessages(frames[i], walEnd);
        next := if frameEnd < next then next else frameEnd;
        i := i + 1;
      }
      assert frames[i..] == [] && AllMessages([], walEnd) == [];
    }

    /** Send what was committed since the last round, one message per decoded line. */
    method Poll(id: nat)
      requires Valid() && id in sessions
      modifies this`sessions
      ensures Valid() && Now() == PollStep(old(Now()), id)
    {
      hide Inv, FramesSince, Unread, NextAfter, AllMessages;
      StepKeepsInv(Now(), Event.Poll(id));
      var x := sessions[id];
      var frames := ReadFramesSince(x.next);
      var next, out := SendFrames(frames, end, x.next);
      if frames != [] {
        sessions := sessions[id := x.(next := next, sent := x.sent + out, frames := x.frames + frames,
                                      skipped := x.skipped + Unread(history, x.next, base))];
      } else {
        assert PollSession(Now(), x) == x;
        assert sessions[id := x] == sessions;
      }
    }

    method Mark(id: nat)
      requires Valid() && id in sessions
      modifies this`slots
      ensures Valid() && Now() == MarkStep(old(Now()), id)
    {
      hide Inv;
      StepKeepsInv(Now(), Event.Mark(id));
      SessionSlots(Now());
      var x := sessions[id];
      var s := slots[x.slot];
      slots := slots[x.slot := s.(restartLsn := if s.restartLsn < x.next then x.next else s.restartLsn)];
    }

    /** A standby status message; a negative position counts as zero. */
    method Feedback(id: nat, flushedRaw: int)
      requires Valid() && id in sessions
      modifies this`slots
      ensures Valid() && Now() == FeedbackStep(old(Now()), id, flushedRaw)
    {
      hide Inv;
      StepKeepsInv(Now(), Event.Feedback(id, flushedRaw));
      SessionSlots(Now());
      var name := sessions[id].slot;
      var s := slots[name];
      var flushed := if flushedRaw < 0 then 0 else flushedRaw;
      if flushed > s.confirmedLsn {
        s := s.(confirmedLsn := flushed);
        s := s.(restartLsn := if s.restartLsn < flushed then flushed else s.restartLsn);
        slots := slots[name := s];
      }
    }

    method EndSession(id: nat)
      requires Valid() && id in sessions
      modifies this`slots, this`sessions
      ensures Valid() && Now() == EndStep(old(Now()), id)
    {
      hide Inv;
      StepKeepsInv(Now(), End(id));
      SessionSlots(Now());
      var name := sessions[id].slot;
      slots := slots[name := slots[name].(active := false)];
      sessions := sessions - {id};
    }

    /** One event, whichever it is. */
    method Perform(e: Event)
      requires Valid()
      modifies this
      ensures Valid() && Now() == Step(old(Now()), e)
    {
      hide Inv, PollSession, ValidSlotName, Valid;
      match e
      case Commit(lines, size) => Commit(lines, size);
      case Checkpoint => Checkpoint();
      case Create(name, slotType, plugin) => var _ := CreateSlot(name, slotType, plugin);
      case Drop(name) => var _ := DropSlot(name);
      case Start(id, name, lsn) => if id !in sessions { var _ := StartSession(id, name, lsn); }
      case Poll(id) => if id in sessions { Poll(id); }
      case Mark(id) => if id in sessions { Mark(id); }
      case Feedback(id, flushed) => if id in sessions { Feedback(id, flushed); }
      case End(id) => if id in sessions { EndSession(id); }
    }

    /** Any interleaving of events takes the server through the run of the model. */
    method PerformAll(events: seq<Event>)
      requires Valid()
      modifies this
      ensures Valid() && Now() == Run(old(Now()), events)
    {
      hide Run, Step, Valid;
      var i := 0;
      assert events[0..] == events;
      while i < |events|
        invariant 0 <= i <= |events|
        invariant Valid() && Run(Now(), events[i..]) == Run(old(Now()), events)
      {
        RunUnfold(Now(), events, i);
        Perform(events[i]);
        i := i + 1;
      }
      RunNil(Now());
      assert events[i..] == [];
    }
  }

  lemma FramesSinceNil(from: nat)
    ensures FramesSince([], from) == []
  {
  }

  lemma FramesSinceUnfold(log: seq<Frame>, i: nat, from: nat)
    requires i < |log|
    ensures FramesSince(log[i..], from)
         == (if from <= log[i].lsn then [log[i]] else []) + FramesSince(log[i + 1..], from)
  {
    assert log[i..][0] == log[i] && log[i..][1..] == log[i + 1..];
  }
}
