/**
 Times with seconds and microseconds (adns/tvarith.h:30-38, adns/event.c:170-211), and the numbers of
 microseconds that the resolver (`AdnsWaiting`, `AdnsEngine`) calculates with: each of the two functions on
 numbers is what the method on normalised times computes.
 */
module TimeVal {
  import opened Wrappers

  const MILLION := 1_000_000

  datatype TimeVal = TimeVal(sec: int, usec: int)
  {
    predicate Normal() { 0 <= usec < MILLION }

    function Micros(): int { sec * MILLION + usec }
  }

  /** `timercmp`, with `>` */
  predicate Later(a: TimeVal, b: TimeVal) {
    if a.sec == b.sec then a.usec > b.usec else a.sec > b.sec
  }

  lemma LaterIs(a: TimeVal, b: TimeVal)
    requires a.Normal() && b.Normal()
    ensures Later(a, b) <==> a.Micros() > b.Micros()
    ensures a == b <==> a.Micros() == b.Micros()
  {
  }

  /** `/` of C, which rounds towards zero. */
  function Quotient(a: int, b: int): int
    requires b > 0
  {
    if a >= 0 then a / b else -((-a) / b)
  }

  /** A time that is changed in place. */
  class Clock {
    var tv: TimeVal

    constructor (tv: TimeVal)
      ensures this.tv == tv
    {
      this.tv := tv;
    }

    /** `timevaladd` */
    method Add(ms: nat)
      requires tv.Normal()
      modifies this
      ensures tv.Normal() && tv.Micros() == old(tv).Micros() + ms * 1000
    {
      var usec := tv.usec + ms % 1000 * 1000;
      var sec := tv.sec + ms / 1000;
      if usec >= MILLION {
        sec := sec + 1;
        usec := usec - MILLION;
      }
      tv := TimeVal(sec, usec);
    }
  }

  /** What a caller wants to wait at most: nothing is asked (`None` outside), no time was given yet, or a
      time. */
  type Limit = Option<Option<TimeVal>>

  function LimitMicros(w: Limit): Option<int>
  {
    match w
    case Some(Some(t)) => Some(t.Micros())
    case _ => None
  }

  /** The lesser limit, in microseconds. */
  function Sooner(limit: Option<int>, wait: int): Option<int> {
    match limit
    case None => Some(wait)
    case Some(m) => if m > wait then Some(wait) else limit
  }

  /** How long it is until `end`, if that is still to come. */
  function Left(end: int, now: int): int {
    if end <= now then 0 else end - now
  }

  predicate NormalLimit(w: Limit) {
    match w
    case Some(Some(t)) => t.Normal() && t.sec >= 0
    case _ => true
  }

  /** `tv_io`, `*tv_io` and `**tv_io`. */
  class Caller {
    var w: Limit

    constructor (w: Limit)
      ensures this.w == w
    {
      this.w := w;
    }

    /** `inter_maxto` */
    method AtMost(maxto: TimeVal)
      requires NormalLimit(w) && maxto.Normal() && maxto.sec >= 0
      modifies this
      ensures NormalLimit(w) && (w == None <==> old(w) == None)
      ensures w != None ==> LimitMicros(w) == Sooner(LimitMicros(old(w)), maxto.Micros())
    {
      match w
      case None =>
      case Some(None) => w := Some(Some(maxto));
      case Some(Some(rbuf)) =>
        LaterIs(rbuf, maxto);
        if Later(rbuf, maxto) {
          w := Some(Some(maxto));
        }
    }

    /** `inter_maxtoabs`: no later than `maxtime`. The detour over two more seconds keeps the microseconds
        positive where C would round the quotient of a negative number up. */
    method NoLaterThan(now: TimeVal, maxtime: TimeVal)
      requires NormalLimit(w) && now.Normal() && maxtime.Normal()
      modifies this
      ensures NormalLimit(w) && (w == None <==> old(w) == None)
      ensures w != None ==>
        LimitMicros(w) == Sooner(LimitMicros(old(w)), Left(maxtime.Micros(), now.Micros()))
    {
      if w == None {
        return;
      }
      var sec := maxtime.sec - (now.sec + 2);
      var usec := maxtime.usec - (now.usec - 2 * MILLION);
      var quot := Quotient(usec, MILLION);
      sec := sec + quot;
      usec := usec - quot * MILLION;
      if sec < 0 {
        sec, usec := 0, 0;
      }
      AtMost(TimeVal(sec, usec));
    }
  }

  /** Without the detour, a difference of less than a second backwards would come out with negative
      microseconds. */
  lemma DetourIsNeeded(now: TimeVal, maxtime: TimeVal)
    requires now.Normal() && maxtime.Normal()
    ensures var usec := maxtime.usec - now.usec;
            (usec - Quotient(usec, MILLION) * MILLION < 0 <==> maxtime.usec < now.usec)
    ensures var usec := maxtime.usec - (now.usec - 2 * MILLION);
            0 <= usec - Quotient(usec, MILLION) * MILLION < MILLION
  {
  }
}
