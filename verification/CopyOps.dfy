/** Sets of elementary copies, and when their order does not matter. */
module CopyOps {

  /** Copy the value at `src` to `dst`. */
  datatype Op<L> = Op(dst: L, src: L)

  /** Run the copies one after the other. Copies from outside the memory do nothing. */
  ghost function Run<L, V>(mem: map<L, V>, ops: seq<Op<L>>): map<L, V> {
    if ops == [] then mem
    else
      var before := Run(mem, ops[..|ops| - 1]);
      var op := ops[|ops| - 1];
      if op.src in before then before[op.dst := before[op.src]] else before
  }

  /** Each destination has one source, and nothing is both read and written. */
  ghost predicate Independent<L(!new)>(ops: iset<Op<L>>) {
    && (forall a, b :: a in ops && b in ops && a.dst == b.dst ==> a.src == b.src)
    && (forall a, b :: a in ops && b in ops ==> a.dst != b.src)
  }

  /** `after` is `before` with every copy of `ops` made, and nothing else changed. */
  ghost predicate Copied<L(!new), V>(before: map<L, V>, ops: iset<Op<L>>, after: map<L, V>) {
    && after.Keys == before.Keys
    && (forall op :: op in ops && op.src in before && op.dst in before ==> after[op.dst] == before[op.src])
    && (forall l :: l in before && (forall op :: op in ops ==> op.dst != l) ==> after[l] == before[l])
  }

  ghost function SetOf<L(!new)>(ops: seq<Op<L>>): iset<Op<L>> { iset op | op in ops }

  /** An independent set of copies gives the same memory in every order, with any of the
      copies repeated, however the threads that make them interleave. */
  lemma {:induction false} AnyOrder<L(!new), V>(mem: map<L, V>, ops: seq<Op<L>>, all: iset<Op<L>>)
    requires Independent(all) && (forall op :: op in ops ==> op in all)
    requires forall op :: op in all ==> op.src in mem && op.dst in mem
    ensures Copied(mem, SetOf(ops), Run(mem, ops))
  {
    if ops != [] {
      var rest := ops[..|ops| - 1];
      var op := ops[|ops| - 1];
      AnyOrder(mem, rest, all);
      var before := Run(mem, rest);
      var after := Run(mem, ops);
      assert forall o :: o in ops <==> o in rest || o == op by {
        assert ops == rest + [op];
      }
      assert before[op.src] == mem[op.src];
      forall o | o in SetOf(ops) ensures after[o.dst] == mem[o.src] {
        if o != op && o.dst != op.dst {
          assert o in SetOf(rest);
        }
      }
      forall l | l in mem && (forall o :: o in SetOf(ops) ==> o.dst != l) ensures after[l] == mem[l] {
        assert op in SetOf(ops);
        assert forall o :: o in SetOf(rest) ==> o in SetOf(ops);
      }
    }
  }

  /** Copies of one independent set made in two batches. */
  lemma CopiedThen<L(!new), V>(before: map<L, V>, first: iset<Op<L>>, between: map<L, V>, second: iset<Op<L>>,
                               after: map<L, V>, all: iset<Op<L>>)
    requires Copied(before, first, between) && Copied(between, second, after)
    requires Independent(all) && first <= all && second <= all
    requires forall op :: op in all ==> op.src in before && op.dst in before
    ensures Copied(before, first + second, after)
  {
    forall op | op in second ensures after[op.dst] == before[op.src] {
      assert between[op.src] == before[op.src];
    }
    forall op | op in first && op !in second ensures after[op.dst] == before[op.src] {
      if other :| other in second && other.dst == op.dst {
        assert after[other.dst] == before[other.src];
      } else {
        assert after[op.dst] == between[op.dst];
      }
    }
    forall l | l in before && (forall op :: op in first + second ==> op.dst != l) ensures after[l] == before[l] {
      assert forall op :: op in first || op in second ==> op in first + second;
    }
  }
}
