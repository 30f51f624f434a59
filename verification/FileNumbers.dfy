/**
 The counter of file numbers of VersionSet (version_set.h).
 */
module FileNumbers {
  class VersionSet {
    var nextFileNumber: nat
    ghost var inUse: set<nat>      // handed out and not given back, or marked as used

    ghost predicate Valid() reads this {
      forall n :: n in inUse ==> n < nextFileNumber
    }

    constructor (next: nat)
      ensures Valid() && nextFileNumber == next && inUse == {}
    {
      nextFileNumber, inUse := next, {};
    }

    // Never a number that is still in use, whatever was given back before.
    method NewFileNumber() returns (n: nat)
      requires Valid()
      modifies this`nextFileNumber, this`inUse
      ensures Valid() && n !in old(inUse) && inUse == old(inUse) + {n}
      ensures n == old(nextFileNumber) && nextFileNumber == n + 1
    {
      n := nextFileNumber;
      nextFileNumber := nextFileNumber + 1;
      inUse := inUse + {n};
    }

    // Gives a number back, which helps only while it is the newest.
    method ReuseFileNumber(n: nat)
      requires Valid() && n in inUse
      modifies this`nextFileNumber, this`inUse
      ensures Valid()
      ensures if old(nextFileNumber) == n + 1 then nextFileNumber == n && inUse == old(inUse) - {n}
              else nextFileNumber == old(nextFileNumber) && inUse == old(inUse)
    {
      if nextFileNumber == n + 1 {
        nextFileNumber := n;
        inUse := inUse - {n};
      }
    }

    method MarkFileNumberUsed(n: nat)
      requires Valid()
      modifies this`nextFileNumber, this`inUse
      ensures Valid() && inUse == old(inUse) + {n} && nextFileNumber == if n < old(nextFileNumber) then old(nextFileNumber) else n + 1
    {
      if nextFileNumber <= n {
        nextFileNumber := n + 1;
      }
      inUse := inUse + {n};
    }

    // MakeRoomForWrite when the new log file cannot be created: the number is given back at once,
    // under the same hold of the mutex, so nothing changes.
    method FailedLogCreation()
      requires Valid()
      modifies this`nextFileNumber, this`inUse
      ensures Valid() && nextFileNumber == old(nextFileNumber) && inUse == old(inUse)
    {
      var n := NewFileNumber();
      ReuseFileNumber(n);
    }
  }
}
