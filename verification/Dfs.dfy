/** The radar handlers, in place on the channel table. */
module Dfs {
  import opened DfsSpec

  /** How much of the handling a debug setting leaves. */
  datatype Debug = NoDebug | NoNol | NoCsaNol

  /** What the radar handler does about the channel in use. */
  datatype Reaction = Ignored | Elsewhere | CacEndsNow | SwitchTo(k: nat) | Waits

  /** How the CAC timer's expiry ends. */
  datatype Outcome = NotInCac | FoundRadar | Clear

  class DfsState {
    const table: array<Entry>
    const flags: array<set<nat>>
    const nol: nat
    var timer: Option<int>
    var newChan: Option<nat>
    ghost var clock: int

    ghost function Now(): State
      reads this, table
    {
      State(table[..], timer, clock, nol)
    }

    predicate Valid() {
      flags.Length == table.Length
    }

    constructor (freqs: seq<nat>, modes: seq<set<nat>>, nol: nat, ghost clock: int)
      requires |modes| == |freqs|
      ensures Valid() && fresh(table) && table.Length == |freqs| && Fresh(Now())
      ensures this.nol == nol && this.clock == clock && flags[..] == modes
      ensures forall i :: 0 <= i < |freqs| ==> table[i].freq == freqs[i]
    {
      table := new Entry[|freqs|](i requires 0 <= i < |freqs| => Entry(freqs[i], false, false, false, 0));
      flags := new set<nat>[|modes|](i requires 0 <= i < |modes| => modes[i]);
      this.nol, timer, newChan, this.clock := nol, None, None, clock;
    }

    /** Marks every entry of the frequency of entry `k` and makes sure the timer runs. */
    method Mark(k: nat, now: int)
      requires Enabled(Now(), Radar(k, now))
      modifies `timer, `clock, table
      ensures Now() == Next(old(Now()), Radar(k, now))
    {
      ghost var was := table[..];
      var freq := table[k].freq;
      for i := 0 to table.Length
        invariant timer == old(timer)
        invariant forall j :: 0 <= j < i ==> table[j] == Struck(was[j], freq, false, now)
        invariant forall j :: i <= j < table.Length ==> table[j] == was[j]
      {
        if table[i].freq == freq {
          table[i] := table[i].(cacDone := false, radar := true, event := now);
        }
      }
      table[k] := table[k].(noRadar := true);
      if timer.None? {
        timer := Some(now + nol);
      }
      clock := now;
      assert forall j :: 0 <= j < table.Length ==> table[j] == Struck(was[j], freq, j == k, now);
    }

    /** Entry `i` may be switched to. */
    predicate Free(i: nat, want: set<nat>)
      requires Valid() && i < table.Length
      reads table, flags
    {
      !table[i].radar && want <= flags[i]
    }

    /** The scan's choice, or else any free entry, searched for from a random
        place; `None` exactly when there is no such. */
    method PickChannel(want: set<nat>, scan: Option<nat>, random: nat) returns (r: Option<nat>)
      requires Valid() && table.Length > 0
      ensures scan.Some? ==> r == scan
      ensures scan.None? ==> (r.Some? <==> exists i :: 0 <= i < table.Length && Free(i, want))
      ensures scan.None? && r.Some? ==> r.value < table.Length && Free(r.value, want)
    {
      if scan.Some? {
        return scan;
      }
      var v := random % table.Length;
      for i := v to table.Length
        invariant forall j :: v <= j < i ==> !Free(j, want)
      {
        if Free(i, want) {
          return Some(i);
        }
      }
      for i := 0 to v
        invariant forall j :: 0 <= j < i ==> !Free(j, want)
      {
        if Free(i, want) {
          return Some(i);
        }
      }
      r := None;
    }

    /** Radar on entry `k` while entry `bss` is in use. */
    method NotifyRadar(k: nat, bss: nat, now: int, debug: Debug, cacPending: bool, want: set<nat>, scan: Option<nat>, random: nat)
      returns (r: Reaction)
      requires Valid() && Enabled(Now(), Radar(k, now))
      modifies this, table
      ensures Now() == if debug == NoDebug then Next(old(Now()), Radar(k, now)) else old(Now())
      ensures r == Ignored <==> debug == NoCsaNol
      ensures r == Elsewhere <==> debug != NoCsaNol && k != bss
      ensures r == CacEndsNow <==> debug != NoCsaNol && k == bss && cacPending
      ensures r.SwitchTo? ==> newChan == Some(r.k)
      ensures r == Waits ==> newChan == None && (forall i :: 0 <= i < table.Length ==> !Free(i, want))
      ensures debug == NoCsaNol || k != bss ==> newChan == old(newChan)
      ensures debug == NoNol && k == bss ==> newChan == Some(k)
      ensures debug == NoDebug && k == bss && scan.None? && newChan.Some? ==>
                newChan.value < table.Length && Free(newChan.value, want) && table[newChan.value].freq != table[k].freq
    {
      if debug == NoCsaNol {
        return Ignored;
      }
      if debug == NoDebug {
        Mark(k, now);
      }
      if k != bss {
        return Elsewhere;
      }
      if debug == NoDebug {
        newChan := PickChannel(want, scan, random);
      } else {
        newChan := Some(k);
      }
      if cacPending {
        r := CacEndsNow;
      } else if newChan.Some? {
        r := SwitchTo(newChan.value);
      } else {
        r := Waits;
      }
    }

    method CacTimeout(k: nat, inCac: bool, now: int) returns (r: Outcome)
      requires Enabled(Now(), CacExpire(k, now))
      modifies `timer, `clock, table
      ensures inCac ==> Now() == Next(old(Now()), CacExpire(k, now))
      ensures !inCac ==> Now() == old(Now())
      ensures r == if !inCac then NotInCac else if old(table[k].radar) then FoundRadar else Clear
    {
      if !inCac {
        return NotInCac;
      }
      ghost var was := table[..];
      var freq := table[k].freq;
      if table[k].radar {
        r := FoundRadar;
      } else {
        for i := 0 to table.Length
          invariant timer == old(timer)
          invariant forall j :: 0 <= j < i ==> table[j] == Checked(was[j], freq, false)
          invariant forall j :: i <= j < table.Length ==> table[j] == was[j]
        {
          if table[i].freq == freq {
            table[i] := table[i].(cacDone := true);
          }
        }
        r := Clear;
      }
      clock := now;
    }

    method DfsCacClear(k: nat, ghost now: int)
      requires Enabled(Now(), CacClear(k, now))
      modifies `timer, `clock, table
      ensures Now() == Next(old(Now()), CacClear(k, now))
    {
      ghost var was := table[..];
      var freq := table[k].freq;
      for i := 0 to table.Length
        invariant timer == old(timer)
        invariant forall j :: 0 <= j < i ==> table[j] == Cleared(was[j], freq)
        invariant forall j :: i <= j < table.Length ==> table[j] == was[j]
      {
        if table[i].freq == freq {
          table[i] := table[i].(cacDone := false);
        }
      }
      clock := now;
    }

    /** Clears the marks that have served their time, says which entries user
        space is told about, and sets the timer for the next. */
    method Timeout(now: int) returns (told: seq<nat>)
      requires Enabled(Now(), Event.Timeout(now))
      modifies `timer, `clock, table
      ensures Now() == Next(old(Now()), Event.Timeout(now))
      ensures told == Notified(old(table[..]), now, nol)
    {
      timer := None;
      ghost var was := table[..];
      var oldest := now;
      told := [];
      for i := 0 to table.Length
        invariant timer == None && clock == old(clock)
        invariant forall j :: 0 <= j < i ==> table[j] == Aged(was[j], now, nol)
        invariant forall j :: i <= j < table.Length ==> table[j] == was[j]
        invariant oldest == Oldest(was[..i], now, nol) && told == Notified(was[..i], now, nol)
      {
        assert was[..i + 1][..i] == was[..i];
        if table[i].radar {
          if now >= table[i].event + nol {
            table[i] := table[i].(radar := false);
            if table[i].noRadar {
              table[i] := table[i].(noRadar := false);
              told := told + [i];
            }
          } else if table[i].event < oldest {
            oldest := table[i].event;
          }
        }
      }
      assert was[..table.Length] == was;
      if oldest != now {
        timer := Some(oldest + nol);
      }
      clock := now;
    }

    method DfsReset(ghost now: int)
      requires Enabled(Now(), Reset(now))
      modifies `timer, `clock, table
      ensures Now() == Next(old(Now()), Reset(now))
    {
      timer := None;
      ghost var was := table[..];
      for i := 0 to table.Length
        invariant timer == None
        invariant forall j :: 0 <= j < i ==> table[j] == Wiped(was[j])
        invariant forall j :: i <= j < table.Length ==> table[j] == was[j]
      {
        table[i] := table[i].(radar := false, cacDone := false, noRadar := false);
      }
      clock := now;
    }
  }
}
