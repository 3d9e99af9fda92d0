/** The mesh sequence number kept in flash: genie_storage.c and the update event of genie_event.c. */
module SeqStorage {
  import opened Lists

  /** `GENIE_SEQ_SAVE_INTERVAL`, `GENIE_SEQ_MAGIC_NUMBER`, and the 24 bits of a sequence number. */
  const INTERVAL: nat := 100
  const MAGIC: nat := 0xA8
  const SEQ_MOD: nat := 0x100_0000

  datatype Status = Success | Invalid

  function Pack(number: nat): (w: nat)
    ensures w / SEQ_MOD == MAGIC && w % SEQ_MOD == number % SEQ_MOD
  {
    number % SEQ_MOD + MAGIC * SEQ_MOD
  }

  lemma PackIs(number: nat)
    requires number < SEQ_MOD
    ensures Pack(number) == 0xA8 * SEQ_MOD + number && Pack(number) / SEQ_MOD == MAGIC && Pack(number) % SEQ_MOD == number
  {
  }

  /** Which values `genie_storage_write_seq` saves without force. */
  predicate Saved(number: nat) { number <= 3 || number % INTERVAL == 0 }

  /** The first value after `v` that gets saved. */
  function NextSave(v: nat): (n: nat)
    ensures v < n <= v + INTERVAL && Saved(n) && forall s :: v < s < n ==> !Saved(s)
    ensures n == v + INTERVAL <==> v > 3 && v % INTERVAL == 0
  {
    if v < 3 then v + 1 else (v / INTERVAL + 1) * INTERVAL
  }

  /** A message, a message cut short by a reboot, or a reboot. */
  datatype Step = Message | CutMessage | Restart

  /** The most numbers that `steps` can take: one for each message and the interval for each reboot. */
  function Cost(steps: seq<Step>): (c: nat)
    ensures c <= (INTERVAL + 1) * |steps|
  {
    if steps == [] then 0 else
      var rest := Cost(steps[..|steps| - 1]);
      match steps[|steps| - 1]
      case Message => rest + 1
      case CutMessage => rest + 1 + INTERVAL
      case Restart => rest + INTERVAL
  }

  lemma {:induction false} CostGrows(steps: seq<Step>, k: nat)
    requires k <= |steps|
    ensures Cost(steps[..k]) <= Cost(steps)
    decreases |steps| - k
  {
    if k < |steps| {
      CostGrows(steps, k + 1);
      assert steps[..k + 1][..k] == steps[..k];
    } else {
      assert steps[..k] == steps;
    }
  }

  lemma CostStart(steps: seq<Step>)
    ensures Cost(steps[..0]) == 0
  {
  }

  lemma CostNext(steps: seq<Step>, k: nat)
    requires k < |steps|
    ensures Cost(steps[..k + 1]) == Cost(steps[..k]) + match steps[k]
              case Message => 1
              case CutMessage => 1 + INTERVAL
              case Restart => INTERVAL
  {
    assert steps[..k + 1][..k] == steps[..k];
  }

  class SeqStore {
    /** `bt_mesh.seq`: the number the next message will carry. */
    var number: nat
    var kv: Option<nat>
    /** Whether the node is provisioned: a reboot that finds no number does not restore it. */
    var up: bool
    /** Numbers that messages have carried, and whether the last one still awaits its update event. */
    ghost var used: seq<nat>
    ghost var open: bool

    ghost predicate Inv()
      reads this
    {
      && Increasing(used) && (open ==> up)
      && (up && used != [] ==> used[|used| - 1] < number)
      && match kv
         case None => up ==> number == if open then 1 else 0
         case Some(w) =>
           && up && w / SEQ_MOD == MAGIC && 1 <= Stored() <= number <= NextSave(Stored())
           && if open then Stored() < number else number < NextSave(Stored())
    }

    /** The number in flash. */
    ghost function Stored(): nat
      requires kv.Some?
      reads this
    {
      kv.value % SEQ_MOD
    }

    /** A freshly provisioned node: nothing is saved before its first message. */
    constructor ()
      ensures Inv() && up && number == 0 && used == [] && !open && kv == None
    {
      number, kv, up := 0, None, true;
      used, open := [], false;
    }

    /** `genie_storage_write_seq`, with a write that succeeds */
    method WriteSeq(force: bool)
      modifies this`kv
      ensures kv == if force || number <= 3 || number % INTERVAL == 0 then Some(Pack(number)) else old(kv)
    {
      if !force && number > 3 && number % INTERVAL != 0 {
        return;
      }
      kv := Some(Pack(number));
    }

    /** A message takes the next number: one that no message has carried before. */
    method Use() returns (n: nat)
      requires Inv() && up && !open && number + 1 < SEQ_MOD
      modifies this
      ensures Inv() && up && open && n == old(number) && number == n + 1 && kv == old(kv)
      ensures n !in old(used) && used == old(used) + [n]
    {
      n := number;
      NotUsedYet(used, number);
      number := number + 1;
      used, open := used + [n], true;
    }

    /** The update event of that message; `number == 0` belongs to a new IV index. The number in
        flash is then the last one that needed saving. */
    method Update()
      requires Inv() && open && number < SEQ_MOD
      modifies this
      ensures Inv() && up && !open && number == old(number) && used == old(used)
      ensures kv.Some? && Stored() <= number < NextSave(Stored())
      ensures kv == if number <= 3 || number % INTERVAL == 0 then Some(0xA8 * SEQ_MOD + number) else old(kv)
    {
      hide Pack, Increasing, NextSave;
      PackIs(number);
      WriteSeq(number == 0);
      open := false;
    }

    /** `genie_storage_read_seq` after a reboot at any point. The node is restored unless no message
        had its update event yet. The restored number lies above every number carried, and above the
        number reached, too, unless the reboot came just between reaching a multiple of the interval
        and saving it, one interval after the last save. */
    method Reboot() returns (st: Status)
      requires Inv() && (kv.Some? ==> Stored() + INTERVAL < SEQ_MOD)
      modifies this
      ensures Inv() && !open && used == old(used) && up == (st == Success)
      ensures up <==> old(up) && old(number) > if old(open) then 1 else 0
      ensures if !up then number == 0 else old(kv.Some?) && number == old(Stored()) + INTERVAL >= old(number)
      ensures up ==> forall n :: n in used ==> n < number
      ensures up ==> (number > old(number) <==> !(old(open) && old(number) == old(Stored()) + INTERVAL))
    {
      number, open := 0, false;
      LastIsLargest(used);
      st := ReadSeq();
      up := st == Success;
    }

    method ReadSeq() returns (st: Status)
      requires kv.Some? ==> Stored() + INTERVAL < SEQ_MOD
      modifies this`number, this`kv
      ensures st == if old(kv.Some? && kv.value / SEQ_MOD == MAGIC) then Success else Invalid
      ensures st == Invalid ==> number == old(number) && kv == old(kv)
      ensures st == Success ==> number == old(kv.value) % SEQ_MOD + INTERVAL && kv == Some(Pack(number))
    {
      if kv.None? || kv.value / SEQ_MOD != MAGIC {
        return Invalid;
      }
      number := kv.value % SEQ_MOD;
      number := number + INTERVAL;
      WriteSeq(true);
      return Success;
    }

    /** Any run of messages and reboots, each possibly before an update event: no number is carried
        by two messages, whatever the cut, and a node that is not restored sends nothing more. */
    method Run(steps: seq<Step>)
      requires Inv() && !open && number + Cost(steps) < SEQ_MOD
      modifies this
      ensures Inv() && !open && Increasing(used) && old(used) <= used
      ensures number <= old(number) + Cost(steps)
      ensures up <==> old(up) && (old(kv.Some?) || steps == [] || steps[0] == Message)
    {
      hide Cost, Pack, Increasing, NextSave;
      CostStart(steps);
      for k := 0 to |steps|
        invariant Inv() && !open && old(used) <= used
        invariant number <= old(number) + Cost(steps[..k])
        invariant k == 0 ==> up == old(up) && kv == old(kv) && number == old(number)
        invariant k > 0 ==> up == (old(up) && (old(kv.Some?) || steps[0] == Message)) && (up ==> kv.Some?)
      {
        CostGrows(steps, k + 1);
        CostNext(steps, k);
        if up && steps[k] != Restart {
          var _ := Use();
        }
        if steps[k] != Message {
          var _ := Reboot();
        } else if up {
          Update();
        }
      }
      assert steps[..|steps|] == steps;
    }
  }

  /** The window is real: 199 has been carried and 200 reached, but only 100 is in flash... */
  method Reach200() returns (s: SeqStore)
    ensures fresh(s) && s.Inv() && s.open && s.number == 200 && s.kv == Some(0xA800_0064) && s.Stored() == 100
    ensures s.used == seq(200, i => i)
  {
    s := new SeqStore();
    for i := 0 to 200
      invariant fresh(s) && s.Inv() && s.up && s.number == i && s.used == seq(i, j => j)
      invariant s.open == (i == 200) && (i > 0 ==> s.kv == Some(0xA8 * SEQ_MOD + s.Stored()) && Saved(s.Stored()))
    {
      var _ := s.Use();
      assert s.used == seq(i + 1, j => j);
      if i + 1 < 200 {
        s.Update();
      }
    }
  }

  /** ...so a reboot there restores the number reached, 200, and not a larger one. */
  method ReachedAgain() returns (s: SeqStore)
    ensures fresh(s) && s.Inv() && !s.open && s.number == 200 && s.used == seq(200, i => i)
  {
    s := Reach200();
    var _ := s.Reboot();
  }

  /** Strictly increasing, so without repetition. */
  ghost predicate Increasing(s: seq<nat>) { forall i, j :: 0 <= i < j < |s| ==> s[i] < s[j] }

  lemma NotUsedYet(s: seq<nat>, n: nat)
    requires Increasing(s) && (s != [] ==> s[|s| - 1] < n)
    ensures n !in s && Increasing(s + [n])
  {
    LastIsLargest(s);
  }

  lemma LastIsLargest(s: seq<nat>)
    requires Increasing(s)
    ensures forall n :: n in s ==> n <= s[|s| - 1]
  {
  }
}
