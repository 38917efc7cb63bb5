/** Which events of a binary log `process_event` handles: the --offset, --start and --stop window and --server-id. */
module EventWindow {

  const WRAP: nat := 0x1_0000_0000_0000_0000      // rec_count is an unsigned 64-bit counter

  datatype Kind = FormatDescription | Rotate | Other

  datatype Event = Event(kind: Kind, when: nat, pos: nat, serverExcluded: bool)

  datatype Verdict = Handled | Ignored | Stop

  /** Where the window stands when a log is opened: the latches, the stop options and the events counted before. */
  datatype Options = Options(offset: nat, startTime: nat, stopTime: nat, stopPos: nat, counted: nat)

  /** One more on an unsigned 64-bit counter. */
  function Next(n: nat): nat {
    if n + 1 == WRAP then 0 else n + 1
  }

  /** The counter at event `i`. */
  function CountAt(o: Options, i: nat): nat {
    if i == 0 then o.counted else Next(CountAt(o, i - 1))
  }

  /** The event at `k` is one that opens the window. */
  predicate Opens(o: Options, evs: seq<Event>, k: nat)
    requires k < |evs|
  {
    evs[k].kind != FormatDescription && CountAt(o, k) >= o.offset && evs[k].when >= o.startTime
  }

  /** The window is open at `i`: some event up to and including it has opened it. */
  ghost predicate Open(o: Options, evs: seq<Event>, i: nat)
    requires i < |evs|
  {
    exists k: nat :: k <= i && Opens(o, evs, k)
  }

  /** Events that are looked at: format events always, others inside the window unless their server is excluded. */
  ghost predicate Eligible(o: Options, evs: seq<Event>, i: nat)
    requires i < |evs|
  {
    evs[i].kind == FormatDescription ||
    (Open(o, evs, i) && (evs[i].kind == Rotate || !evs[i].serverExcluded))
  }

  predicate AtStop(o: Options, e: Event) {
    e.when >= o.stopTime || e.pos >= o.stopPos
  }

  /** No eligible event up to and including `i` is at or past the stop time or position. */
  ghost predicate BeforeStop(o: Options, evs: seq<Event>, i: nat)
    requires i < |evs|
  {
    forall k: nat :: k <= i && Eligible(o, evs, k) ==> !AtStop(o, evs[k])
  }

  /** Whether the window was open before event `i`, it opens with it, or it stays closed. */
  lemma OpenNext(o: Options, evs: seq<Event>, i: nat)
    requires i < |evs|
    ensures Open(o, evs, i) <==> (i > 0 && Open(o, evs, i - 1)) || Opens(o, evs, i)
  {
  }

  /** The handled events among the first `i`, in order. */
  ghost predicate Picked(o: Options, evs: seq<Event>, i: nat, handled: seq<nat>)
    requires i <= |evs|
  {
    && (forall k: nat :: k in handled <==> k < i && Eligible(o, evs, k))
    && (forall a, b :: 0 <= a < b < |handled| ==> handled[a] < handled[b])
  }

  lemma PickMore(o: Options, evs: seq<Event>, i: nat, handled: seq<nat>)
    requires i < |evs| && Picked(o, evs, i, handled)
    ensures Picked(o, evs, i + 1, if Eligible(o, evs, i) then handled + [i] else handled)
  {
    var more := handled + [i];
    assert forall k: nat :: k in more <==> k in handled || k == i;
    forall a, b | 0 <= a < b < |more| ensures more[a] < more[b] {
      assert handled[a] in handled;
    }
  }

  /** No event before `i` that is looked at is at the stop. */
  ghost predicate NoStop(o: Options, evs: seq<Event>, i: nat)
    requires i <= |evs|
  {
    forall k: nat :: k < i && Eligible(o, evs, k) ==> !AtStop(o, evs[k])
  }

  /** Exactly the eligible events before the stop are handled. */
  ghost predicate HandledBeforeStop(o: Options, evs: seq<Event>, handled: seq<nat>) {
    forall i: nat :: i in handled <==> i < |evs| && Eligible(o, evs, i) && BeforeStop(o, evs, i)
  }

  lemma StoppedHere(o: Options, evs: seq<Event>, i: nat, handled: seq<nat>)
    requires i < |evs| && Picked(o, evs, i, handled) && NoStop(o, evs, i)
    requires Eligible(o, evs, i) && AtStop(o, evs[i])
    ensures HandledBeforeStop(o, evs, handled)
  {
    forall k: nat | k < |evs| ensures BeforeStop(o, evs, k) <==> k < i {
    }
  }

  lemma NeverStopped(o: Options, evs: seq<Event>, handled: seq<nat>)
    requires Picked(o, evs, |evs|, handled) && NoStop(o, evs, |evs|)
    ensures HandledBeforeStop(o, evs, handled)
  {
    forall k: nat | k < |evs| ensures BeforeStop(o, evs, k) {
    }
  }

  /** The counter is the number of events so far, modulo its size. */
  lemma {:induction false} CountWraps(o: Options, i: nat)
    requires o.counted < WRAP
    ensures CountAt(o, i) == (o.counted + i) % WRAP
  {
    if i > 0 {
      CountWraps(o, i - 1);
      WrapNext(o.counted + (i - 1));
    }
  }

  lemma WrapNext(n: nat)
    ensures (n + 1) % WRAP == Next(n % WRAP)
  {
    var q, r := n / WRAP, n % WRAP;
    assert n + 1 == WRAP * q + (r + 1);
    if r + 1 == WRAP {
      assert n + 1 == WRAP * (q + 1) + 0;
    }
  }

  /** The latches before event `i`. */
  ghost predicate Latched(o: Options, evs: seq<Event>, i: nat, offset: nat, startTime: nat)
    requires i <= |evs|
  {
    if i > 0 && Open(o, evs, i - 1) then offset == 0 && startTime == 0
    else offset == o.offset && startTime == o.startTime
  }

  /** The test that the program makes with its latches decides whether the event is looked at. */
  lemma TestDecides(o: Options, evs: seq<Event>, i: nat, offset: nat, startTime: nat)
    requires i < |evs| && Latched(o, evs, i, offset, startTime)
    ensures var e := evs[i];
            var inside := CountAt(o, i) >= offset && e.when >= startTime;
            && (Eligible(o, evs, i) <==>
                e.kind == FormatDescription || (inside && (e.kind == Rotate || !e.serverExcluded)))
            && if inside && e.kind != FormatDescription then Latched(o, evs, i + 1, 0, 0)
               else Latched(o, evs, i + 1, offset, startTime)
  {
    OpenNext(o, evs, i);
  }

  /** Event `k` lies behind the start: enough events have been counted, and it is not too early. */
  predicate BehindStart(o: Options, evs: seq<Event>, k: nat)
    requires k < |evs|
  {
    evs[k].kind != FormatDescription && (o.counted + k) % WRAP >= o.offset && evs[k].when >= o.startTime
  }

  /** The event is looked at: a format event, or one behind the start and not from an excluded server. */
  ghost predicate LookedAt(o: Options, evs: seq<Event>, i: nat)
    requires i < |evs|
  {
    evs[i].kind == FormatDescription ||
    ((exists k: nat :: k <= i && BehindStart(o, evs, k)) && (evs[i].kind == Rotate || !evs[i].serverExcluded))
  }

  /** It is before both the stop time and the stop position. */
  predicate InFront(o: Options, e: Event) { e.when < o.stopTime && e.pos < o.stopPos }

  lemma LookedAtIs(o: Options, evs: seq<Event>, i: nat)
    requires o.counted < WRAP && i < |evs|
    ensures LookedAt(o, evs, i) <==> Eligible(o, evs, i)
  {
    forall k: nat | k <= i ensures BehindStart(o, evs, k) <==> Opens(o, evs, k) {
      CountWraps(o, k);
    }
    if exists k: nat :: k <= i && BehindStart(o, evs, k) {
      var k: nat :| k <= i && BehindStart(o, evs, k);
      assert Opens(o, evs, k);
    }
    if Open(o, evs, i) {
      var k: nat :| k <= i && Opens(o, evs, k);
      assert BehindStart(o, evs, k);
    }
  }

  /**
   The handled events are those looked at, up to and without the first of them that is not in front of the stop time
   and the stop position.
   */
  lemma HandledAre(o: Options, evs: seq<Event>, handled: seq<nat>, i: nat)
    requires o.counted < WRAP && HandledBeforeStop(o, evs, handled)
    ensures i in handled <==>
            i < |evs| && LookedAt(o, evs, i) && forall k: nat :: k <= i && LookedAt(o, evs, k) ==> InFront(o, evs[k])
  {
    forall k: nat | k < |evs| ensures LookedAt(o, evs, k) <==> Eligible(o, evs, k) {
      LookedAtIs(o, evs, k);
    }
    if i < |evs| {
      assert BeforeStop(o, evs, i) <==> forall k: nat :: k <= i && LookedAt(o, evs, k) ==> InFront(o, evs[k]);
    }
  }

  class Window {
    const stopTime: nat
    var stopPos: nat           // applies to the last log only
    var recCount: nat
    var offset: nat
    var startTime: nat

    function Now(): Options
      reads this
    {
      Options(offset, startTime, stopTime, stopPos, recCount)
    }

    constructor (offset: nat, startTime: nat, stopTime: nat, stopPos: nat)
      ensures Now() == Options(offset, startTime, stopTime, stopPos, 0)
    {
      this.offset, this.startTime, this.stopTime, this.stopPos, recCount := offset, startTime, stopTime, stopPos, 0;
    }

    method ProcessEvent(ev: Event) returns (v: Verdict)
      requires recCount < WRAP
      modifies this`recCount, this`offset, this`startTime
      ensures recCount == Next(old(recCount))
      ensures var inside := old(recCount >= offset && ev.when >= startTime);
              && (if inside && ev.kind != FormatDescription then offset == 0 && startTime == 0
                  else offset == old(offset) && startTime == old(startTime))
              && v == if ev.kind != FormatDescription && (!inside || (ev.kind != Rotate && ev.serverExcluded))
                      then Ignored
                      else if AtStop(old(Now()), ev) then Stop else Handled
    {
      v := Ignored;
      if (recCount >= offset && ev.when >= startTime) || ev.kind == FormatDescription {
        if ev.kind != FormatDescription {
          startTime := 0;
          offset := 0;         // print everything from now on, even if the counter wraps
        }
        if ev.kind == FormatDescription || ev.kind == Rotate || !ev.serverExcluded {
          v := if ev.when >= stopTime || ev.pos >= stopPos then Stop else Handled;
        }
      }
      recCount := Next(recCount);
    }

    /** Goes through a log until its end or the stop point, and returns the positions of the handled events. */
    method DumpLog(evs: seq<Event>) returns (handled: seq<nat>, stopped: bool)
      requires recCount < WRAP
      modifies this`recCount, this`offset, this`startTime
      ensures HandledBeforeStop(old(Now()), evs, handled)
      ensures forall a, b :: 0 <= a < b < |handled| ==> handled[a] < handled[b]
      ensures stopped <==> !NoStop(old(Now()), evs, |evs|)
      ensures recCount < WRAP && (!stopped ==> recCount == CountAt(old(Now()), |evs|))
      ensures !stopped ==> Latched(old(Now()), evs, |evs|, offset, startTime)
    {
      handled := [];
      ghost var o := Now();
      for i := 0 to |evs|
        invariant recCount == CountAt(o, i) < WRAP && stopPos == o.stopPos
        invariant Latched(o, evs, i, offset, startTime)
        invariant Picked(o, evs, i, handled)
        invariant NoStop(o, evs, i)
      {
        TestDecides(o, evs, i, offset, startTime);
        PickMore(o, evs, i, handled);
        var v := ProcessEvent(evs[i]);
        if v == Stop {
          StoppedHere(o, evs, i, handled);
          return handled, true;
        }
        if v == Handled {
          handled := handled + [i];
        }
      }
      NeverStopped(o, evs, handled);
      return handled, false;
    }
  }
}
