/**
 * Partition choosers: given the partition count of the topic and the routing
 * key of a message, the partition the message is sent to.  The configured
 * chooser is ModuloPartitionDelegate; when the configured class cannot be
 * loaded at start-up a chooser that always answers 1 is used instead.
 */
module PartitionStrategy {
  import opened Wrappers
  import opened JavaLang

  /** The chooser in use: the modulo delegate, or a constant answer (the start-up fallback). */
  datatype Strategy = Modulo | Constant(partition: Int32)

  /** The chooser used when the configured class cannot be instantiated. */
  const FALLBACK: Strategy := Constant(1)

  /**
   * ModuloPartitionDelegate.apply: the Java remainder of the key by the
   * partition count, narrowed to int.  The narrowing never changes the value,
   * because the remainder is smaller in magnitude than an int divisor.
   */
  function ModuloApply(partitions: Int32, value: Int64): (r: Int32)
    requires partitions != 0
    ensures r == Rem(value, partitions)
    ensures value == partitions * Quot(value, partitions) + r
    ensures Abs(r) < Abs(partitions)
    ensures value > 0 ==> r >= 0
    ensures value < 0 ==> r <= 0
  {
    ToInt32(Rem(value, partitions))
  }

  /**
   * The remainder is pinned down by its defining facts: any `r` that leaves
   * `value - r` a multiple of the partition count, is smaller in magnitude
   * than it and does not have the opposite sign of `value` is the answer.
   */
  lemma ModuloIsTheRemainder(partitions: Int32, value: Int64, q: int, r: int)
    requires partitions != 0
    requires value == partitions * q + r && Abs(r) < Abs(partitions)
    requires value > 0 ==> r >= 0
    requires value < 0 ==> r <= 0
    ensures ModuloApply(partitions, value) == r
  {
    RemUnique(value, partitions, q, r);
  }

  /** For a non-negative key and a positive count the partition is in range and is the ordinary modulus. */
  lemma ModuloInRange(partitions: Int32, value: Int64)
    requires partitions > 0 && value >= 0
    ensures 0 <= ModuloApply(partitions, value) < partitions
    ensures ModuloApply(partitions, value) == value % partitions
  {
    assert value == partitions * (value / partitions) + value % partitions;
    ModuloIsTheRemainder(partitions, value, value / partitions, value % partitions);
  }

  /** A negative key gives a partition in (-partitions, 0]: a negative partition unless the key is a multiple. */
  lemma ModuloOfNegativeKey(partitions: Int32, value: Int64)
    requires partitions > 0 && value < 0
    ensures -partitions < ModuloApply(partitions, value) <= 0
    ensures ModuloApply(partitions, value) == 0 <==> value % partitions == 0
  {
    var r := ModuloApply(partitions, value);
    var q := Quot(value, partitions);
    if r == 0 {
      assert value == partitions * q;
      assert value % partitions == 0 by {
        ModuloMultiple(partitions, q);
      }
    } else {
      assert value + (-r) == partitions * q;
      if value % partitions == 0 {
        var k := value / partitions;
        assert value == partitions * k;
        assert partitions * (q - k) == -r by {
          assert partitions * (q - k) == partitions * q - partitions * k;
        }
        MultipleAtLeastDivisor(partitions, q - k);
        assert false;
      }
    }
  }

  /** Dafny's `%` of an exact multiple is zero. */
  lemma ModuloMultiple(partitions: int, q: int)
    requires partitions != 0
    ensures (partitions * q) % partitions == 0
  {
    var v := partitions * q;
    var r, k := v % partitions, v / partitions;
    assert v == partitions * k + r;
    assert partitions * (q - k) == r by {
      assert partitions * (q - k) == partitions * q - partitions * k;
    }
    if r != 0 {
      MultipleAtLeastDivisor(partitions, q - k);
      assert false;
    }
  }

  /** A key of -1 on a three-partition topic is sent to partition -1. */
  lemma NegativeKeyExample()
    ensures ModuloApply(3, -1) == -1
  {
    ModuloIsTheRemainder(3, -1, 0, -1);
  }

  /** Keys of the same sign that differ by a multiple of the count land on the same partition. */
  lemma ModuloShift(partitions: Int32, value: Int64, k: nat)
    requires partitions > 0 && value >= 0
    requires value + partitions * k <= LONG_MAX
    ensures ModuloApply(partitions, value + partitions * k) == ModuloApply(partitions, value)
  {
    var q, r := Quot(value, partitions), ModuloApply(partitions, value);
    assert partitions * k >= 0;
    assert value + partitions * k == partitions * (q + k) + r by {
      assert partitions * (q + k) == partitions * q + partitions * k;
    }
    ModuloIsTheRemainder(partitions, value + partitions * k, q + k, r);
  }

  /** The fallback sends to partition 1 even when the topic has only partition 0. */
  lemma FallbackOnOnePartition(value: Int64)
    ensures Apply(FALLBACK, 1, value) == Some(1)
  {
  }

  /**
   * IPartitionStrategy.apply for the chooser in use.  `None` stands for the
   * ArithmeticException the modulo delegate raises on a zero partition count;
   * the constant chooser never fails and ignores both arguments.
   */
  function Apply(s: Strategy, partitions: Int32, value: Int64): (r: Option<Int32>)
    ensures r.None? <==> (s.Modulo? && partitions == 0)
    ensures s.Modulo? && r.Some? ==>
              Abs(r.value) < Abs(partitions) && (value - r.value) % partitions == 0
              && (value > 0 ==> r.value >= 0) && (value < 0 ==> r.value <= 0)
    ensures s.Constant? ==> r == Some(s.partition)
  {
    match s
    case Modulo =>
      if partitions == 0 then None
      else
        var r := ModuloApply(partitions, value);
        ModuloMultiple(partitions, Quot(value, partitions));
        assert value - r == partitions * Quot(value, partitions);
        Some(r)
    case Constant(p) => Some(p)
  }
}
