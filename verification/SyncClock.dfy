/** The clock of a sync: formatted moments, and how many of them leave the names of conflict copies unused. */
module SyncClock {
  import opened ConflictNames

  /** A formatted moment of the years 0 to 9999: `2026-01-31 23-59-59`. */
  predicate StampShaped(stamp: string) {
    && |stamp| == 19
    && forall i :: 0 <= i < 19 ==>
         if i == 4 || i == 7 || i == 13 || i == 16 then stamp[i] == '-'
         else if i == 10 then stamp[i] == ' '
         else '0' <= stamp[i] <= '9'
  }

  lemma ShapedIsPlain(stamp: string)
    requires StampShaped(stamp)
    ensures PlainStamp(stamp)
  {
  }

  /** Where the mark of a copy begins can be told from the copy and the length of the stamp. */
  lemma MarkBegins(rel: string, stamp: string)
    requires PlainStamp(stamp)
    ensures var c, m := ConflictPath(rel, stamp), |Mark(stamp)|;
            && Cut(rel) == (if Cut(c) < |c| then Cut(c) - m else |c| - m)
            && Cut(rel) + m <= |c| && c[Cut(rel)..Cut(rel) + m] == Mark(stamp)
  {
    var c, m := ConflictPath(rel, stamp), |Mark(stamp)|;
    CutOfCopy(rel, stamp);
    assert |c| == |rel| + m;
    assert c[Cut(rel)..Cut(rel) + m] == Mark(stamp);
  }

  /** A name is that of a conflict copy for one stamp of a length only. */
  lemma OneStampPerName(a: string, s: string, b: string, t: string)
    requires PlainStamp(s) && PlainStamp(t) && |s| == |t| && ConflictPath(a, s) == ConflictPath(b, t)
    ensures s == t
  {
    MarkBegins(a, s);
    MarkBegins(b, t);
    assert s == Mark(s)[11..11 + |s|] && t == Mark(t)[11..11 + |t|];
  }

  /** No file gets a conflict copy with a name in `used`. */
  ghost predicate Fresh(stamp: string, used: set<string>) {
    forall q :: ConflictPath(q, stamp) !in used
  }

  /** The clock shows these moments one after the other, each formatted differently. */
  ghost predicate Ticks(format: int -> string, times: seq<int>) {
    && (forall i :: 0 <= i < |times| ==> StampShaped(format(times[i])))
    && forall i, j :: 0 <= i < j < |times| ==> times[i] < times[j] && format(times[i]) != format(times[j])
  }

  /** Each name in use spoils at most one moment. */
  lemma {:induction false} FreshTimes(format: int -> string, times: seq<int>, used: set<string>)
      returns (rest: seq<int>)
    requires Ticks(format, times)
    ensures Ticks(format, rest) && |rest| + |used| >= |times|
    ensures forall t :: t in rest ==> t in times && Fresh(format(t), used)
    decreases |used|
  {
    if used == {} {
      rest := times;
    } else {
      var x :| x in used;
      var most := FreshTimes(format, times, used - {x});
      if i, q :| 0 <= i < |most| && ConflictPath(q, format(most[i])) == x {
        rest := most[..i] + most[i + 1..];
        OnlyOneSpoilt(format, most, i, q, x);
      } else {
        rest := most;
      }
      forall t | t in rest ensures Fresh(format(t), used) {
        assert Fresh(format(t), used - {x});
      }
    }
  }

  lemma OnlyOneSpoilt(format: int -> string, times: seq<int>, i: nat, q: string, x: string)
    requires Ticks(format, times) && i < |times| && ConflictPath(q, format(times[i])) == x
    ensures forall t, p :: t in times[..i] + times[i + 1..] ==> ConflictPath(p, format(t)) != x
  {
    forall t, p | t in times[..i] + times[i + 1..] ensures ConflictPath(p, format(t)) != x {
      var j :| 0 <= j < |times| && j != i && times[j] == t;
      ShapedIsPlain(format(times[i]));
      ShapedIsPlain(format(t));
      if ConflictPath(p, format(t)) == x {
        OneStampPerName(p, format(t), q, format(times[i]));
      }
    }
  }
}
