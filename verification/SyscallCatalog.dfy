/**
 The system-call catalog: what tools/syscall_catalog.py accepts, on parsed entries, and the
 descriptor rows that tools/gen_syscall_catalog.py generates from it.
 */
module SyscallCatalog {
  import opened Basics

  datatype Kind = Scalar | CString | Buffer | Structure | Handle | Address
  datatype Direction = ByValue | In | Out | InOut
  datatype Access = NoAccess | Read | Write | ReadWrite
  datatype Snapshot = NoSnapshot | Before | After | BeforeThenAfter
  datatype Encoding = NoEncoding | RawBytes | Terminated | AbiStructure

  datatype Argument = Argument(
    name: string, kind: Kind, direction: Direction, nullable: bool, alignment: int,
    access: Access, snapshot: Snapshot, encoding: Encoding, nested: bool)

  datatype Publication = NoOutput | Atomic | Partial
  datatype FailureState = NotApplicable | Unchanged | PartlyWritten

  datatype Output = Output(publication: Publication, failure: FailureState, partialErrors: seq<string>, retry: bool)

  datatype Mode = Free | Permissions | Subsystem | PermissionsThenSubsystem

  /** A permission is named by its bit. */
  datatype Authority = Authority(mode: Mode, permissions: seq<Permission>)

  datatype Permission = ServiceDiscover | ServiceRegister | Ipc | Input | Display | SharedSurface | ManageChild

  datatype Call = Call(
    number: int, symbol: string, sdkSymbol: string, name: string,
    arguments: seq<Argument>, output: Output, authority: Option<Authority>)

  // ----- What is accepted -----

  predicate IsPointer(a: Argument) { a.kind.CString? || a.kind.Buffer? || a.kind.Structure? }

  predicate PowerOfTwo(x: int) {
    x in {1, 2, 4, 8, 16, 32, 64, 128, 256, 512, 1024, 2048, 4096}
  }

  /** A value carries no pointer policy; a pointer is read and copied before the handler, or
      written after it, as its direction says. */
  predicate ArgumentOk(a: Argument) {
    && PowerOfTwo(a.alignment)
    && (if IsPointer(a)
        then match a.direction
             case ByValue => false
             case In => a.access.Read? && a.snapshot.Before?
             case Out => a.access.Write? && a.snapshot.After?
             case InOut => a.access.ReadWrite? && a.snapshot.BeforeThenAfter?
        else
          && a.direction.ByValue? && a.access.NoAccess?
          && a.snapshot.NoSnapshot? && a.encoding.NoEncoding? && !a.nested)
    && (a.kind.CString? ==> a.encoding.Terminated?)
    && (a.kind.Buffer? ==> a.encoding.RawBytes?)
    && (a.kind.Structure? ==> a.encoding.AbiStructure?)
  }

  /** The arguments that are accepted, one by one: a value of three kinds, and a pointer of three
      kinds in three directions. Only pointers may be nested. */
  lemma ArgumentTable(a: Argument)
    ensures ArgumentOk(a) <==>
            && a.alignment in {1, 2, 4, 8, 16, 32, 64, 128, 256, 512, 1024, 2048, 4096}
            && match a.kind
               case Scalar => a.(name := "", nullable := false, alignment := 0) == Plain(Scalar)
               case Handle => a.(name := "", nullable := false, alignment := 0) == Plain(Handle)
               case Address => a.(name := "", nullable := false, alignment := 0) == Plain(Address)
               case CString => a.encoding == Terminated && (a.direction, a.access, a.snapshot) in POINTER_POLICIES
               case Buffer => a.encoding == RawBytes && (a.direction, a.access, a.snapshot) in POINTER_POLICIES
               case Structure => a.encoding == AbiStructure && (a.direction, a.access, a.snapshot) in POINTER_POLICIES
  {
  }

  const POINTER_POLICIES: set<(Direction, Access, Snapshot)> :=
    {(In, Read, Before), (Out, Write, After), (InOut, ReadWrite, BeforeThenAfter)}

  function Plain(kind: Kind): Argument {
    Argument("", kind, ByValue, false, 0, NoAccess, NoSnapshot, NoEncoding, false)
  }

  function Power(k: nat): nat { if k == 0 then 1 else 2 * Power(k - 1) }

  /** The alignments are the powers of two up to 4096. */
  lemma AlignmentIff(x: int)
    ensures PowerOfTwo(x) <==> exists k: nat :: k <= 12 && x == Power(k)
  {
    assert Power(0) == 1 && Power(1) == 2 && Power(2) == 4 && Power(3) == 8 && Power(4) == 16;
    assert Power(5) == 2 * Power(4) && Power(6) == 2 * Power(5) && Power(7) == 2 * Power(6);
    assert Power(8) == 2 * Power(7) && Power(9) == 2 * Power(8) && Power(10) == 2 * Power(9);
    assert Power(11) == 2 * Power(10) && Power(12) == 2 * Power(11);
  }

  predicate Writes(a: Argument) { a.direction.Out? || a.direction.InOut? }

  predicate OutputOk(o: Output, hasOutput: bool) {
    match o.publication
    case NoOutput => !hasOutput && o.failure.NotApplicable? && o.partialErrors == [] && !o.retry
    case Atomic => hasOutput && o.failure.Unchanged? && o.partialErrors == [] && o.retry
    case Partial => hasOutput && o.failure.PartlyWritten? && o.partialErrors != [] && o.retry
  }

  predicate NeedsPermissions(m: Mode) { m.Permissions? || m.PermissionsThenSubsystem? }

  predicate AuthorityOk(a: Authority) {
    Distinct(a.permissions) && (NeedsPermissions(a.mode) <==> a.permissions != [])
  }

  function Resolved(c: Call, default: Authority): Authority {
    if c.authority.Some? then c.authority.value else default
  }

  predicate HasOutput(c: Call) { exists a | a in c.arguments :: Writes(a) }

  predicate CallOk(c: Call, default: Authority) {
    && |c.arguments| <= 3 && Distinct(seq(|c.arguments|, i requires 0 <= i < |c.arguments| => c.arguments[i].name))
    && (forall a | a in c.arguments :: ArgumentOk(a))
    && OutputOk(c.output, HasOutput(c)) && Distinct(c.output.partialErrors)
    && AuthorityOk(Resolved(c, default))
  }

  // ----- The validator -----

  method CheckArgument(a: Argument) returns (errors: nat)
    ensures errors == 0 <==> ArgumentOk(a)
  {
    errors := 0;
    if !IsPointer(a) && !a.direction.ByValue? {
      errors := errors + 1;
    }
    if IsPointer(a) && a.direction.ByValue? {
      errors := errors + 1;
    }
    if !PowerOfTwo(a.alignment) {
      errors := errors + 1;
    }
    if !IsPointer(a) {
      if !a.access.NoAccess? || !a.snapshot.NoSnapshot? || !a.encoding.NoEncoding? || a.nested {
        errors := errors + 1;
      }
    } else if a.direction.In? && !(a.access.Read? && a.snapshot.Before?) {
      errors := errors + 1;
    } else if a.direction.Out? && !(a.access.Write? && a.snapshot.After?) {
      errors := errors + 1;
    } else if a.direction.InOut? && !(a.access.ReadWrite? && a.snapshot.BeforeThenAfter?) {
      errors := errors + 1;
    }
    if a.kind.CString? && !a.encoding.Terminated? {
      errors := errors + 1;
    }
    if a.kind.Buffer? && !a.encoding.RawBytes? {
      errors := errors + 1;
    }
    if a.kind.Structure? && !a.encoding.AbiStructure? {
      errors := errors + 1;
    }
  }

  method CheckArguments(arguments: seq<Argument>) returns (errors: nat, hasOutput: bool)
    ensures errors == 0 <==> forall a | a in arguments :: ArgumentOk(a)
    ensures hasOutput <==> exists a | a in arguments :: Writes(a)
  {
    errors, hasOutput := 0, false;
    var i := 0;
    while i < |arguments|
      invariant i <= |arguments|
      invariant errors == 0 <==> forall a | a in arguments[..i] :: ArgumentOk(a)
      invariant hasOutput <==> exists a | a in arguments[..i] :: Writes(a)
    {
      assert arguments[..i + 1] == arguments[..i] + [arguments[i]];
      var more := CheckArgument(arguments[i]);
      errors, hasOutput := errors + more, hasOutput || Writes(arguments[i]);
      i := i + 1;
    }
    assert arguments[..i] == arguments;
  }

  /** A set of what was seen finds every repetition. */
  method CountRepeats<T(==)>(s: seq<T>) returns (errors: nat)
    ensures errors == 0 <==> Distinct(s)
  {
    errors := 0;
    var seen: set<T> := {};
    var i := 0;
    while i < |s|
      invariant i <= |s| && (forall x :: x in seen <==> x in s[..i])
      invariant errors == 0 <==> Distinct(s[..i])
    {
      assert s[..i + 1] == s[..i] + [s[i]];
      DistinctAppends(s[..i], s[i]);
      if s[i] in seen {
        errors := errors + 1;
      } else {
        seen := seen + {s[i]};
      }
      i := i + 1;
    }
    assert s[..i] == s;
  }

  method CheckOutput(o: Output, hasOutput: bool) returns (errors: nat)
    ensures errors == 0 <==> OutputOk(o, hasOutput)
  {
    errors := 0;
    if !hasOutput {
      if !o.publication.NoOutput? || !o.failure.NotApplicable? || o.partialErrors != [] || o.retry {
        errors := 1;
      }
    } else if o.publication.NoOutput? {
      errors := 1;
    } else if o.publication.Atomic? {
      if !o.failure.Unchanged? || o.partialErrors != [] || !o.retry {
        errors := 1;
      }
    } else if !o.failure.PartlyWritten? || o.partialErrors == [] || !o.retry {
      errors := 1;
    }
  }

  method CheckAuthority(a: Authority) returns (errors: nat)
    ensures errors == 0 <==> AuthorityOk(a)
  {
    errors := CountRepeats(a.permissions);
    if (a.mode.Free? || a.mode.Subsystem?) && a.permissions != [] {
      errors := errors + 1;
    }
    if (a.mode.Permissions? || a.mode.PermissionsThenSubsystem?) && a.permissions == [] {
      errors := errors + 1;
    }
  }

  method CheckCall(c: Call, default: Authority) returns (errors: nat)
    ensures errors == 0 <==> CallOk(c, default)
  {
    errors := if |c.arguments| > 3 then 1 else 0;
    var names := CountRepeats(seq(|c.arguments|, i requires 0 <= i < |c.arguments| => c.arguments[i].name));
    var inside, hasOutput := CheckArguments(c.arguments);
    var outside := CheckOutput(c.output, hasOutput);
    var partial := CountRepeats(c.output.partialErrors);
    var authority := CheckAuthority(Resolved(c, default));
    errors := errors + names + inside + outside + partial + authority;
  }

  // ----- Numbers -----

  function Upto(n: nat): (s: set<int>)
    ensures forall x :: x in s <==> 1 <= x <= n
  {
    if n == 0 then {} else Upto(n - 1) + {n}
  }

  predicate Ascending(s: seq<int>) { forall i, j | 0 <= i < j < |s| :: s[i] < s[j] }

  function Numbers(calls: seq<Call>): seq<int> { seq(|calls|, i requires 0 <= i < |calls| => calls[i].number) }

  /** Row i has number i + 1. */
  predicate Counting(s: seq<int>, n: nat) { |s| == n && forall i | 0 <= i < n :: s[i] == i + 1 }

  lemma FirstIsIn(s: seq<int>)
    ensures s == [] || s[0] in s
  {
  }

  lemma {:induction false} AscendingCounts(s: seq<int>, n: nat)
    requires Ascending(s) && forall x :: x in s <==> 1 <= x <= n
    ensures Counting(s, n)
  {
    if n == 0 {
      FirstIsIn(s);
    } else {
      assert n in s;
      var i :| 0 <= i < |s| && s[i] == n;
      assert s[|s| - 1] in s;
      assert i == |s| - 1;
      var front := s[..|s| - 1];
      forall x ensures x in front <==> 1 <= x <= n - 1 {
        if x in front {
          var j :| 0 <= j < |front| && front[j] == x;
          assert s[j] < s[|s| - 1];
          assert s[j] in s;
        }
        if 1 <= x <= n - 1 {
          assert x in s;
          var j :| 0 <= j < |s| && s[j] == x;
          assert front[j] == x;
        }
      }
      AscendingCounts(front, n - 1);
    }
  }

  /** No repetition, full coverage and order together say that the rows are numbered one by
      one. A list is the sorted list of a set if it ascends and has the same elements. */
  method CheckNumbers(calls: seq<Call>, maxNumber: nat) returns (errors: nat)
    ensures errors == 0 <==> Counting(Numbers(calls), maxNumber)
  {
    errors := 0;
    var numbers := Numbers(calls);
    var seen: set<int> := {};
    var i := 0;
    while i < |numbers|
      invariant i <= |numbers|
      invariant forall x :: x in seen <==> x in numbers[..i] && x >= 1
      invariant errors == 0 <==> Distinct(numbers[..i]) && forall x | x in numbers[..i] :: x >= 1
    {
      assert numbers[..i + 1] == numbers[..i] + [numbers[i]];
      assert numbers[i] in numbers[..i + 1] && forall x | x in numbers[..i] :: x in numbers[..i + 1];
      DistinctAppends(numbers[..i], numbers[i]);
      if numbers[i] < 1 {
        errors := errors + 1;
      } else if numbers[i] in seen {
        errors := errors + 1;
      } else {
        seen := seen + {numbers[i]};
      }
      i := i + 1;
    }
    assert numbers[..i] == numbers;
    if seen != Upto(maxNumber) {
      errors := errors + 1;
    }
    if !(Ascending(numbers) && forall x | x in numbers :: x in seen) {
      errors := errors + 1;
    }
    if errors == 0 {
      AscendingCounts(numbers, maxNumber);
    }
    if Counting(numbers, maxNumber) {
      CountingIsSeen(numbers, maxNumber);
      assert seen == Upto(maxNumber);
    }
  }

  lemma CountingIsSeen(s: seq<int>, n: nat)
    requires Counting(s, n)
    ensures Distinct(s) && Ascending(s) && forall x :: x in s <==> 1 <= x <= n
  {
    forall x | 1 <= x <= n ensures x in s {
      assert s[x - 1] == x;
    }
  }

  predicate CatalogOk(calls: seq<Call>, default: Authority, maxNumber: nat) {
    && calls != [] && Counting(Numbers(calls), maxNumber)
    && Distinct(seq(|calls|, i requires 0 <= i < |calls| => calls[i].symbol))
    && Distinct(seq(|calls|, i requires 0 <= i < |calls| => calls[i].sdkSymbol))
    && Distinct(seq(|calls|, i requires 0 <= i < |calls| => calls[i].name))
    && (forall c | c in calls :: CallOk(c, default))
    && AuthorityOk(default)
  }

  /** The validator reports nothing exactly on an acceptable catalog. */
  method ValidateCatalog(calls: seq<Call>, default: Authority, maxNumber: nat) returns (errors: nat)
    ensures errors == 0 <==> CatalogOk(calls, default, maxNumber)
  {
    errors := CheckAuthority(default);
    if calls == [] {
      return errors + 1;
    }
    var symbols := CountRepeats(seq(|calls|, i requires 0 <= i < |calls| => calls[i].symbol));
    var sdkSymbols := CountRepeats(seq(|calls|, i requires 0 <= i < |calls| => calls[i].sdkSymbol));
    var names := CountRepeats(seq(|calls|, i requires 0 <= i < |calls| => calls[i].name));
    var numbers := CheckNumbers(calls, maxNumber);
    var each := CheckCalls(calls, default);
    errors := errors + symbols + sdkSymbols + names + numbers + each;
  }

  method CheckCalls(calls: seq<Call>, default: Authority) returns (errors: nat)
    ensures errors == 0 <==> forall c | c in calls :: CallOk(c, default)
  {
    errors := 0;
    var i := 0;
    while i < |calls|
      invariant i <= |calls|
      invariant errors == 0 <==> forall c | c in calls[..i] :: CallOk(c, default)
    {
      assert calls[..i + 1] == calls[..i] + [calls[i]];
      var more := CheckCall(calls[i], default);
      errors := errors + more;
      i := i + 1;
    }
    assert calls[..i] == calls;
  }

  // ----- Descriptors -----

  /** A mask is the set of the positions of its bits, one for each argument register. */
  datatype Descriptor = Descriptor(
    number: int, argumentCount: nat, pointer: set<nat>, nullable: set<nat>, readable: set<nat>, writable: set<nat>,
    snapshot: set<nat>, nested: set<nat>, publication: Publication, mode: Mode, permissions: set<Permission>)

  /** The positions of the arguments for which p holds. */
  function Mask(arguments: seq<Argument>, p: Argument -> bool): set<nat> {
    set i: nat | i < |arguments| && p(arguments[i])
  }

  predicate NullablePointer(a: Argument) { IsPointer(a) && a.nullable }
  predicate Reads(a: Argument) { a.access.Read? || a.access.ReadWrite? }
  predicate Copied(a: Argument) { a.snapshot.Before? || a.snapshot.BeforeThenAfter? }
  predicate Nested(a: Argument) { a.nested }

  /** One more argument in a mask. */
  function Marked(mask: set<nat>, i: nat, yes: bool): set<nat> { if yes then mask + {i} else mask }

  lemma MaskGrows(arguments: seq<Argument>, p: Argument -> bool, i: nat)
    requires i < |arguments|
    ensures Mask(arguments[..i + 1], p) == Marked(Mask(arguments[..i], p), i, p(arguments[i]))
  {
  }

  /** The loop over the arguments of a call. */
  method Masks(arguments: seq<Argument>)
    returns (pointer: set<nat>, nullable: set<nat>, readable: set<nat>, writable: set<nat>, snapshot: set<nat>,
             nested: set<nat>)
    ensures pointer == Mask(arguments, IsPointer) && nullable == Mask(arguments, NullablePointer)
    ensures readable == Mask(arguments, Reads) && writable == Mask(arguments, Writes)
    ensures snapshot == Mask(arguments, Copied) && nested == Mask(arguments, Nested)
  {
    pointer, nullable, readable, writable, snapshot, nested := {}, {}, {}, {}, {}, {};
    var i := 0;
    while i < |arguments|
      invariant i <= |arguments|
      invariant pointer == Mask(arguments[..i], IsPointer) && nullable == Mask(arguments[..i], NullablePointer)
      invariant readable == Mask(arguments[..i], Reads) && writable == Mask(arguments[..i], Writes)
      invariant snapshot == Mask(arguments[..i], Copied) && nested == Mask(arguments[..i], Nested)
    {
      var a := arguments[i];
      MaskGrows(arguments, IsPointer, i);
      MaskGrows(arguments, NullablePointer, i);
      MaskGrows(arguments, Reads, i);
      MaskGrows(arguments, Writes, i);
      MaskGrows(arguments, Copied, i);
      MaskGrows(arguments, Nested, i);
      if IsPointer(a) {
        pointer := pointer + {i};
        if a.nullable {
          nullable := nullable + {i};
        }
      }
      readable := Marked(readable, i, a.access.Read? || a.access.ReadWrite?);
      writable := Marked(writable, i, a.direction.Out? || a.direction.InOut?);
      snapshot := Marked(snapshot, i, a.snapshot.Before? || a.snapshot.BeforeThenAfter?);
      nested := Marked(nested, i, a.nested);
      i := i + 1;
    }
    assert arguments[..i] == arguments;
  }

  /** The row generated for a call of an accepted catalog: a pointer is what is read or written;
      what is copied in is what is read; only pointers can be null or nested; there is a
      publication policy exactly when something is written; and there are permission bits exactly
      in the modes that ask for them. */
  predicate RowOk(d: Descriptor) {
    && d.argumentCount <= 3
    && d.pointer == d.readable + d.writable && d.snapshot == d.readable
    && d.nullable <= d.pointer && d.nested <= d.pointer
    && (d.publication.NoOutput? <==> d.writable == {})
    && (d.mode in {Permissions, PermissionsThenSubsystem} <==> d.permissions != {})
  }

  /** The masks of a row, argument by argument. */
  ghost predicate MasksRight(d: Descriptor, arguments: seq<Argument>) {
    forall i: nat ::
      && (i in d.pointer <==> i < |arguments| && arguments[i].kind in {CString, Buffer, Structure})
      && (i in d.nullable <==> i in d.pointer && arguments[i].nullable)
      && (i in d.readable <==> i < |arguments| && arguments[i].access in {Read, ReadWrite})
      && (i in d.writable <==> i < |arguments| && arguments[i].direction in {Out, InOut})
      && (i in d.snapshot <==> i < |arguments| && arguments[i].snapshot in {Before, BeforeThenAfter})
      && (i in d.nested <==> i < |arguments| && arguments[i].nested)
  }

  method Describe(c: Call, default: Authority) returns (d: Descriptor)
    ensures CallOk(c, default) ==> RowOk(d)
    ensures d.number == c.number && d.argumentCount == |c.arguments|
    ensures MasksRight(d, c.arguments) && d.publication == c.output.publication
    ensures c.authority.Some? ==>
              d.mode == c.authority.value.mode && forall p :: p in d.permissions <==> p in c.authority.value.permissions
    ensures c.authority.None? ==>
              d.mode == default.mode && forall p :: p in d.permissions <==> p in default.permissions
  {
    var pointer, nullable, readable, writable, snapshot, nested := Masks(c.arguments);
    var authority := Resolved(c, default);
    var permissions: set<Permission> := {};
    var i := 0;
    while i < |authority.permissions|
      invariant i <= |authority.permissions| && (permissions == {} <==> i == 0)
      invariant forall p :: p in permissions <==> p in authority.permissions[..i]
    {
      permissions := permissions + {authority.permissions[i]};
      i := i + 1;
    }
    d := Descriptor(c.number, |c.arguments|, pointer, nullable, readable, writable, snapshot, nested,
                    c.output.publication, authority.mode, permissions);
    if CallOk(c, default) {
      MasksAgree(c.arguments);
      WritableIff(c.arguments);
    }
  }

  lemma MasksAgree(arguments: seq<Argument>)
    requires forall a | a in arguments :: ArgumentOk(a)
    ensures Mask(arguments, IsPointer) == Mask(arguments, Reads) + Mask(arguments, Writes)
    ensures Mask(arguments, Copied) == Mask(arguments, Reads)
    ensures Mask(arguments, NullablePointer) <= Mask(arguments, IsPointer)
    ensures Mask(arguments, Nested) <= Mask(arguments, IsPointer)
  {
    assert forall i | 0 <= i < |arguments| :: ArgumentOk(arguments[i]);
  }

  lemma WritableIff(arguments: seq<Argument>)
    ensures Mask(arguments, Writes) == {} <==> !exists a | a in arguments :: Writes(a)
  {
    if a :| a in arguments && Writes(a) {
      var i: nat :| i < |arguments| && arguments[i] == a;
      assert i in Mask(arguments, Writes);
    }
    if Mask(arguments, Writes) != {} {
      var i :| i in Mask(arguments, Writes);
      assert arguments[i] in arguments;
    }
  }

  /** The table generated from a catalog: from an accepted one, row i describes call i + 1 and is
      well formed. */
  method DescribeAll(calls: seq<Call>, default: Authority, ghost maxNumber: nat) returns (rows: seq<Descriptor>)
    ensures |rows| == |calls|
    ensures CatalogOk(calls, default, maxNumber) ==>
              |rows| == maxNumber && forall i | 0 <= i < |rows| :: RowOk(rows[i]) && rows[i].number == i + 1
  {
    rows := [];
    while |rows| < |calls|
      invariant |rows| <= |calls|
      invariant forall i | 0 <= i < |rows| ::
                  rows[i].number == calls[i].number && (CallOk(calls[i], default) ==> RowOk(rows[i]))
    {
      var d := Describe(calls[|rows|], default);
      rows := rows + [d];
    }
    if CatalogOk(calls, default, maxNumber) {
      assert forall i | 0 <= i < |rows| :: Numbers(calls)[i] == calls[i].number && calls[i] in calls;
    }
  }
}
