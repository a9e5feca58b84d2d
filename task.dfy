/** model/Task.java: a task of the JGraphT/CloudSim generation. Its identity, length,
    file size, output size and static priority are fixed by the constructor; the two
    cost fields start at 0.0 and change only through their setters. Equality and the
    hash code look at the id alone. The CloudSim `Cloudlet` reference it can carry is
    not part of this model. */
module CloudTask {

  const Int32Modulus: int := 0x1_0000_0000

  /** Java `int` arithmetic: the value wrapped into `[-2^31, 2^31)`. */
  function WrapInt32(x: int): (r: int)
    ensures -0x8000_0000 <= r < 0x8000_0000
    ensures (r - x) % Int32Modulus == 0
  {
    (x + 0x8000_0000) % Int32Modulus - 0x8000_0000
  }

  class Task {
    const id: int
    const length: int
    const fileSize: int
    const outputSize: int
    const priority: int
    var computationCost: real
    var communicationCost: real

    constructor (id: int, length: int, fileSize: int, outputSize: int, priority: int)
      ensures this.id == id && this.length == length && this.fileSize == fileSize
      ensures this.outputSize == outputSize && this.priority == priority
      ensures computationCost == 0.0 && communicationCost == 0.0
    {
      this.id := id;
      this.length := length;
      this.fileSize := fileSize;
      this.outputSize := outputSize;
      this.priority := priority;
      computationCost := 0.0;
      communicationCost := 0.0;
    }

    method SetComputationCost(cost: real)
      modifies this`computationCost
      ensures computationCost == cost
    {
      computationCost := cost;
    }

    method SetCommunicationCost(cost: real)
      modifies this`communicationCost
      ensures communicationCost == cost
    {
      communicationCost := cost;
    }

    /** `equals`: the same object, or another task with the same id. Equality is
        thus decided by the id alone, whatever the other fields hold. */
    predicate Equals(o: Task?)
      ensures Equals(o) <==> o != null && id == o.id
    {
      o != null && (this == o || id == o.id)
    }

    /** `Objects.hash(id)`, that is `31 * 1 + id` in `int` arithmetic: a 32-bit value
        congruent to `31 + id`. */
    function HashCode(): (r: int)
      ensures -0x8000_0000 <= r < 0x8000_0000 && (r - (31 + id)) % Int32Modulus == 0
    {
      WrapInt32(31 + id)
    }
  }

  /** `equals` is an equivalence relation on tasks. */
  lemma EqualsIsEquivalence(a: Task, b: Task, c: Task)
    ensures a.Equals(a)
    ensures a.Equals(b) ==> b.Equals(a)
    ensures a.Equals(b) && b.Equals(c) ==> a.Equals(c)
  {
  }

  /** `hashCode` is consistent with `equals`. */
  lemma HashCodeConsistent(a: Task, b: Task)
    requires a.Equals(b)
    ensures a.HashCode() == b.HashCode()
  {
  }
}
