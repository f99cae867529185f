/** Bytes, fixed-width integers in network order, and player names in the order of std::string. */
module Wire {

  type Byte = x: int | 0 <= x < 0x100
  type U32 = x: int | 0 <= x < 0x1_0000_0000
  type Bytes = seq<Byte>
  type Name = Bytes

  /** The checksum is a parameter everywhere: what is proved holds for every function of this type. */
  type Checksum = Bytes -> U32

  const U32_SIZE := 4

  /** htobe32 followed by a store. */
  function PutU32(n: U32): (b: Bytes)
    ensures |b| == U32_SIZE
  {
    [n / 0x100_0000, n / 0x1_0000 % 0x100, n / 0x100 % 0x100, n % 0x100]
  }

  /** A load at an offset followed by be32toh. */
  function GetU32(b: Bytes, off: nat): U32
    requires off + U32_SIZE <= |b|
  {
    var b0: int, b1: int, b2: int, b3: int := b[off], b[off + 1], b[off + 2], b[off + 3];
    ((b0 * 0x100 + b1) * 0x100 + b2) * 0x100 + b3
  }

  /** Loading where an integer was stored gives it back. */
  lemma GetPut(b: Bytes, off: nat, n: U32)
    requires off + U32_SIZE <= |b| && b[off..off + U32_SIZE] == PutU32(n)
    ensures GetU32(b, off) == n
  {
    var s := b[off..off + U32_SIZE];
    assert b[off] == s[0] && b[off + 1] == s[1] && b[off + 2] == s[2] && b[off + 3] == s[3];
    Digits(n);
  }

  lemma Digits(n: U32)
    ensures ((n / 0x100_0000 * 0x100 + n / 0x1_0000 % 0x100) * 0x100 + n / 0x100 % 0x100) * 0x100 + n % 0x100 == n
  {
    assert n / 0x100 / 0x100 == n / 0x1_0000;
    assert n / 0x1_0000 / 0x100 == n / 0x100_0000;
  }

  lemma PutGet(b: Bytes, off: nat)
    requires off + U32_SIZE <= |b|
    ensures PutU32(GetU32(b, off)) == b[off..off + U32_SIZE]
  {
    var n := GetU32(b, off);
    var b0: int, b1: int, b2: int := b[off], b[off + 1], b[off + 2];
    assert n / 0x100 == (b0 * 0x100 + b1) * 0x100 + b2;
    assert n / 0x1_0000 == b0 * 0x100 + b1;
    assert n / 0x100_0000 == b0;
  }

  lemma Glue(b: Bytes, i: nat, j: nat, k: nat)
    requires i <= j <= k <= |b|
    ensures b[i..j] + b[j..k] == b[i..k]
  {
  }

  lemma Associate<T>(a: seq<T>, b: seq<T>, c: seq<T>)
    ensures (a + b) + c == a + (b + c)
  {
  }

  /** std::string::operator<, which compares characters as unsigned bytes. */
  predicate Less(a: Bytes, b: Bytes) {
    b != [] && (a == [] || a[0] < b[0] || (a[0] == b[0] && Less(a[1..], b[1..])))
  }

  lemma {:induction false} LessTransitive(a: Bytes, b: Bytes, c: Bytes)
    requires Less(a, b) && Less(b, c)
    ensures Less(a, c)
  {
    if a != [] && a[0] == b[0] == c[0] {
      LessTransitive(a[1..], b[1..], c[1..]);
    }
  }

  lemma {:induction false} LessTotal(a: Bytes, b: Bytes)
    ensures (Less(a, b) || a == b || Less(b, a)) && !Less(a, a) && !(Less(a, b) && Less(b, a))
  {
    if a != [] {
      LessTotal(a[1..], a[1..]);
    }
    if a != [] && b != [] && a[0] == b[0] {
      LessTotal(a[1..], b[1..]);
      assert a == [a[0]] + a[1..];
      assert b == [b[0]] + b[1..];
    }
  }

  /** At the first place where they differ the smaller name has the smaller byte, or ends. */
  ghost predicate SmallerAt(a: Bytes, b: Bytes, k: nat) {
    k <= |a| && k < |b| && a[..k] == b[..k] && (k == |a| || a[k] < b[k])
  }

  lemma {:induction false} LessIff(a: Bytes, b: Bytes)
    ensures Less(a, b) <==> exists k: nat :: SmallerAt(a, b, k)
    decreases |a|
  {
    if a != [] && b != [] && a[0] == b[0] {
      LessIff(a[1..], b[1..]);
      forall k: nat ensures SmallerAt(a[1..], b[1..], k) <==> SmallerAt(a, b, k + 1) {
        SmallerCons(a, b, k);
      }
      assert !SmallerAt(a, b, 0);
      if k: nat :| SmallerAt(a, b, k) {
        assert SmallerAt(a[1..], b[1..], k - 1);
      }
    } else {
      assert forall k: nat | k > 0 && SmallerAt(a, b, k) :: a[..k][0] == b[..k][0];
      assert Less(a, b) <==> SmallerAt(a, b, 0);
    }
  }

  lemma SmallerCons(a: Bytes, b: Bytes, k: nat)
    requires a != [] && b != [] && a[0] == b[0]
    ensures SmallerAt(a[1..], b[1..], k) <==> SmallerAt(a, b, k + 1)
  {
    if k < |a| && k < |b| {
      assert a[..k + 1] == [a[0]] + a[1..][..k] && b[..k + 1] == [b[0]] + b[1..][..k];
      assert a[..k + 1][1..] == a[1..][..k] && b[..k + 1][1..] == b[1..][..k];
    }
  }

  /** What makes the byte order big-endian: encodings compare as the numbers do. */
  lemma BigEndianOrder(m: U32, n: U32)
    ensures Less(PutU32(m), PutU32(n)) <==> m < n
  {
    var a, b := PutU32(m), PutU32(n);
    Digits(m);
    Digits(n);
    LessUnfold(a, b, 0);
    LessUnfold(a, b, 1);
    LessUnfold(a, b, 2);
    LessUnfold(a, b, 3);
    assert a[0..] == a && b[0..] == b;
  }

  lemma LessUnfold(a: Bytes, b: Bytes, i: nat)
    requires i < |a| == |b|
    ensures Less(a[i..], b[i..]) <==> a[i] < b[i] || (a[i] == b[i] && Less(a[i + 1..], b[i + 1..]))
  {
    assert a[i..][1..] == a[i + 1..] && b[i..][1..] == b[i + 1..];
  }

  ghost predicate StrictlySorted(names: seq<Name>) {
    forall i, j | 0 <= i < j < |names| :: Less(names[i], names[j])
  }

  /** std::set<std::string>::insert on the set's iteration order. */
  function Insert(names: seq<Name>, name: Name): (r: seq<Name>) {
    if names == [] || Less(name, names[0]) then [name] + names
    else if names[0] == name then names
    else [names[0]] + Insert(names[1..], name)
  }

  lemma {:induction false} InsertSorted(names: seq<Name>, name: Name)
    requires StrictlySorted(names)
    ensures StrictlySorted(Insert(names, name))
    ensures forall n :: n in Insert(names, name) <==> n in names || n == name
  {
    if names == [] {
    } else if Less(name, names[0]) {
      forall i | 0 <= i < |names| ensures Less(name, names[i]) {
        if i > 0 { LessTransitive(name, names[0], names[i]); }
      }
    } else if names[0] != name {
      var rest := Insert(names[1..], name);
      InsertSorted(names[1..], name);
      LessTotal(name, names[0]);
      assert names == [names[0]] + names[1..];
      forall i | 0 <= i < |rest| ensures Less(names[0], rest[i]) {
        assert rest[i] in rest;
        if rest[i] != name {
          var j :| 0 <= j < |names[1..]| && names[1..][j] == rest[i];
          assert Less(names[0], names[j + 1]);
        }
      }
    }
  }

  /** Inserting a name above all the others puts it last. */
  lemma {:induction false} InsertLast(names: seq<Name>, name: Name)
    requires forall i | 0 <= i < |names| :: Less(names[i], name)
    ensures Insert(names, name) == names + [name]
  {
    if names != [] {
      LessTotal(name, names[0]);
      InsertLast(names[1..], name);
      assert names == [names[0]] + names[1..];
    }
  }

  /** Two strictly sorted sequences with the same elements are equal. */
  lemma {:induction false} SortedUnique(a: seq<Name>, b: seq<Name>)
    requires StrictlySorted(a) && StrictlySorted(b)
    requires forall n :: n in a <==> n in b
    ensures a == b
  {
    assert b == [] || b[0] in b;
    if a != [] {
      assert a[0] in b;
      assert b[0] in a;
      LessTotal(a[0], b[0]);
      assert a[0] == b[0];
      LessTotal(a[0], a[0]);
      forall n ensures n in a[1..] <==> n in b[1..] {
        if n in a[1..] { assert n in a && n != a[0]; }
        if n in b[1..] { assert n in b && n != b[0]; }
      }
      SortedUnique(a[1..], b[1..]);
      assert a == [a[0]] + a[1..] && b == [b[0]] + b[1..];
    }
  }
}
