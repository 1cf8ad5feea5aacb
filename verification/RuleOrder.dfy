/** The order of rules and what a rule matches (Kext/rule.cpp:67-140). */
module RuleOrder {
  import opened Common

  /** A C string is its bytes before the terminator, none of which is 0. */
  type Char = c: int | 1 <= c <= 255 witness 1
  type CString = seq<Char>

  type UInt8 = n: int | 0 <= n < 0x100
  type UInt16 = n: int | 0 <= n < 0x1_0000
  type UInt32 = n: int | 0 <= n < 0x1_0000_0000

  datatype Key = Key(processName: CString, filePath: CString, sockDomain: UInt16, sockType: UInt16,
                     sockProtocol: UInt16, direction: UInt8, allow: UInt8)

  datatype Query = Query(processName: CString, filePath: CString, sockDomain: UInt16, sockType: UInt16,
                         sockProtocol: UInt16, direction: UInt8)

  /** `strcmp`: the difference of the first bytes that differ, the terminator counting as 0. */
  function StrCmp(a: CString, b: CString): int {
    if a == [] && b == [] then 0
    else if a == [] then -b[0]
    else if b == [] then a[0]
    else if a[0] != b[0] then a[0] - b[0]
    else StrCmp(a[1..], b[1..])
  }

  lemma {:induction false} StrCmpSymmetric(a: CString, b: CString)
    ensures StrCmp(a, b) == -StrCmp(b, a)
    ensures StrCmp(a, b) == 0 <==> a == b
    ensures -255 <= StrCmp(a, b) <= 255
  {
    if a != [] && b != [] {
      StrCmpSymmetric(a[1..], b[1..]);
      assert a == [a[0]] + a[1..] && b == [b[0]] + b[1..];
    }
  }

  lemma {:induction false} StrCmpTransitive(a: CString, b: CString, c: CString)
    requires StrCmp(a, b) >= 0 && StrCmp(b, c) >= 0
    ensures StrCmp(a, c) >= 0
    ensures StrCmp(a, c) == 0 ==> a == b == c
  {
    StrCmpSymmetric(a, b);
    StrCmpSymmetric(b, c);
    StrCmpSymmetric(a, c);
    if a != [] && b != [] && c != [] && a[0] == b[0] == c[0] {
      StrCmpTransitive(a[1..], b[1..], c[1..]);
      assert a == [a[0]] + a[1..] && b == [b[0]] + b[1..] && c == [c[0]] + c[1..];
    }
  }

  /** Two strings that agree up to a place are ordered by the bytes there, the end of a string being less than any. */
  lemma {:induction false} StrCmpFirstDifference(p: CString, x: Char, y: Char, s: CString, t: CString)
    requires x != y
    ensures StrCmp(p + [x] + s, p + [y] + t) == x as int - y as int
    ensures StrCmp(p + [x] + s, p) == x && StrCmp(p, p + [x] + s) + x as int == 0
  {
    if p == [] {
      assert [] + [x] + s == [x] + s && [] + [y] + t == [y] + t;
    } else {
      assert (p + [x] + s)[1..] == p[1..] + [x] + s && (p + [y] + t)[1..] == p[1..] + [y] + t;
      StrCmpFirstDifference(p[1..], x, y, s, t);
    }
  }

  /** `Rule::Compare`: the first field that differs decides. */
  function Compare(a: Key, b: Key): int {
    var byProcess := StrCmp(a.processName, b.processName);
    if byProcess != 0 then byProcess else
    var byPath := StrCmp(a.filePath, b.filePath);
    if byPath != 0 then byPath else
    if a.sockDomain != b.sockDomain then a.sockDomain - b.sockDomain else
    if a.sockType != b.sockType then a.sockType - b.sockType else
    if a.sockProtocol != b.sockProtocol then a.sockProtocol - b.sockProtocol else
    if a.direction != b.direction then a.direction - b.direction else
    a.allow - b.allow
  }

  /** `Compare` is antisymmetric in sign, 0 exactly on equal keys, and never leaves the range of the
      numeric differences, so no `int` overflows. */
  lemma CompareSymmetric(a: Key, b: Key)
    ensures Compare(a, b) == -Compare(b, a)
    ensures Compare(a, b) == 0 <==> a == b
    ensures -65535 <= Compare(a, b) <= 65535
  {
    StrCmpSymmetric(a.processName, b.processName);
    StrCmpSymmetric(a.filePath, b.filePath);
  }

  lemma CompareTransitive(a: Key, b: Key, c: Key)
    requires Compare(a, b) > 0 && Compare(b, c) > 0
    ensures Compare(a, c) > 0
  {
    StrCmpSymmetric(a.processName, b.processName);
    StrCmpSymmetric(b.processName, c.processName);
    StrCmpSymmetric(a.processName, c.processName);
    StrCmpTransitive(a.processName, b.processName, c.processName);
    if a.processName == b.processName == c.processName {
      StrCmpSymmetric(a.filePath, b.filePath);
      StrCmpSymmetric(b.filePath, c.filePath);
      StrCmpSymmetric(a.filePath, c.filePath);
      StrCmpTransitive(a.filePath, b.filePath, c.filePath);
    }
  }

  /** Whether two masks share a bit: `(a & b) > 0`. */
  predicate ShareBit(a: nat, b: nat) {
    a > 0 && b > 0 && ((a % 2 == 1 && b % 2 == 1) || ShareBit(a / 2, b / 2))
  }

  lemma ShareBitFour(a: nat, b: nat)
    ensures ShareBit(a, b) <==>
      || (a % 2 == 1 && b % 2 == 1) || (a / 2 % 2 == 1 && b / 2 % 2 == 1)
      || (a / 4 % 2 == 1 && b / 4 % 2 == 1) || (a / 8 % 2 == 1 && b / 8 % 2 == 1) || ShareBit(a / 16, b / 16)
  {
    assert a / 2 / 2 == a / 4 && a / 4 / 2 == a / 8 && a / 8 / 2 == a / 16;
    assert b / 2 / 2 == b / 4 && b / 4 / 2 == b / 8 && b / 8 / 2 == b / 16;
    assert ShareBit(a / 2, b / 2) <==> (a / 2 % 2 == 1 && b / 2 % 2 == 1) || ShareBit(a / 4, b / 4);
    assert ShareBit(a / 4, b / 4) <==> (a / 4 % 2 == 1 && b / 4 % 2 == 1) || ShareBit(a / 8, b / 8);
    assert ShareBit(a / 8, b / 8) <==> (a / 8 % 2 == 1 && b / 8 % 2 == 1) || ShareBit(a / 16, b / 16);
  }

  /** Two masks of eight bits share one exactly when there is a power of two both have. */
  lemma ShareBitExactly(a: UInt8, b: UInt8)
    ensures ShareBit(a, b) <==>
      || (a % 2 == 1 && b % 2 == 1) || (a / 2 % 2 == 1 && b / 2 % 2 == 1)
      || (a / 4 % 2 == 1 && b / 4 % 2 == 1) || (a / 8 % 2 == 1 && b / 8 % 2 == 1)
      || (a / 16 % 2 == 1 && b / 16 % 2 == 1) || (a / 32 % 2 == 1 && b / 32 % 2 == 1)
      || (a / 64 % 2 == 1 && b / 64 % 2 == 1) || (a / 128 % 2 == 1 && b / 128 % 2 == 1)
  {
    ShareBitFour(a, b);
    ShareBitFour(a / 16, b / 16);
    assert a / 16 / 2 == a / 32 && a / 16 / 4 == a / 64 && a / 16 / 8 == a / 128 && a / 16 / 16 == 0;
    assert b / 16 / 2 == b / 32 && b / 16 / 4 == b / 64 && b / 16 / 8 == b / 128 && b / 16 / 16 == 0;
  }

  /** The condition of `FindRule`: a field that is 0 or empty matches anything, except `direction`, which is
      a mask and must share a bit with the mask asked for. */
  predicate Matches(k: Key, q: Query) {
    && (k.processName == [] || k.processName == q.processName)
    && (k.filePath == [] || k.filePath == q.filePath)
    && (k.sockDomain == 0 || k.sockDomain == q.sockDomain)
    && (k.sockType == 0 || k.sockType == q.sockType)
    && (k.sockProtocol == 0 || k.sockProtocol == q.sockProtocol)
    && ShareBit(k.direction, q.direction)
  }

  /** The fields of a query with some of them left open. */
  function Opened(q: Query, anyProcess: bool, anyPath: bool, anyDomain: bool, anyType: bool, anyProtocol: bool,
                  direction: UInt8, allow: UInt8): Key
  {
    Key(if anyProcess then [] else q.processName, if anyPath then [] else q.filePath,
        if anyDomain then 0 else q.sockDomain, if anyType then 0 else q.sockType,
        if anyProtocol then 0 else q.sockProtocol, direction, allow)
  }

  /** The rules that match a query are exactly those that leave some of its fields open, name the others as it does, and
      have a direction in common with it. */
  lemma MatchesExactly(k: Key, q: Query)
    ensures Matches(k, q) <==>
      && ShareBit(k.direction, q.direction)
      && exists a, b, c, d, e :: k == Opened(q, a, b, c, d, e, k.direction, k.allow)
  {
    if Matches(k, q) {
      assert k == Opened(q, k.processName == [], k.filePath == [], k.sockDomain == 0, k.sockType == 0,
                         k.sockProtocol == 0, k.direction, k.allow);
    }
  }

  /** The numbers of a rule, in order of weight. */
  function Numbers(k: Key): seq<int> {
    [k.sockDomain, k.sockType, k.sockProtocol, k.direction, k.allow]
  }

  /** Which fields a rule names instead of leaving them open, in order of weight; then its direction mask
      and whether it allows. */
  function Specificity(k: Key): seq<int> {
    [Bit(k.processName != []), Bit(k.filePath != []), Bit(k.sockDomain != 0), Bit(k.sockType != 0),
     Bit(k.sockProtocol != 0), k.direction, k.allow]
  }

  /** `a` comes after `b` in lexicographic order. */
  predicate LexGreater(a: seq<int>, b: seq<int>)
    requires |a| == |b|
  {
    a != [] && (a[0] > b[0] || (a[0] == b[0] && LexGreater(a[1..], b[1..])))
  }

  lemma LexStep(a: seq<int>, b: seq<int>, i: nat)
    requires |a| == |b| && i < |a|
    ensures LexGreater(a[i..], b[i..]) <==> a[i] > b[i] || (a[i] == b[i] && LexGreater(a[i + 1..], b[i + 1..]))
  {
    assert a[i..][1..] == a[i + 1..] && b[i..][1..] == b[i + 1..];
  }

  /** The lexicographic order on seven components, written out. */
  lemma LexSeven(s: seq<int>, t: seq<int>)
    requires |s| == |t| == 7
    ensures LexGreater(s, t) <==>
      if s[0] != t[0] then s[0] > t[0] else if s[1] != t[1] then s[1] > t[1]
      else if s[2] != t[2] then s[2] > t[2] else if s[3] != t[3] then s[3] > t[3]
      else if s[4] != t[4] then s[4] > t[4] else if s[5] != t[5] then s[5] > t[5] else s[6] > t[6]
  {
    assert s[0..] == s && t[0..] == t;
    LexStep(s, t, 0);
    LexStep(s, t, 1);
    LexStep(s, t, 2);
    LexStep(s, t, 3);
    LexStep(s, t, 4);
    LexStep(s, t, 5);
    LexStep(s, t, 6);
  }

  /** The strings decide first, the process before the path; then the numbers, the first that differ. */
  lemma CompareByFields(a: Key, b: Key)
    ensures a.processName != b.processName ==> Compare(a, b) == StrCmp(a.processName, b.processName)
    ensures a.processName == b.processName && a.filePath != b.filePath ==>
      Compare(a, b) == StrCmp(a.filePath, b.filePath)
    ensures a.processName == b.processName && a.filePath == b.filePath ==>
              (Compare(a, b) > 0 <==> LexGreater(Numbers(a), Numbers(b)))
  {
    StrCmpSymmetric(a.processName, b.processName);
    StrCmpSymmetric(a.filePath, b.filePath);
    var s, t := Numbers(a), Numbers(b);
    assert s[0..] == s && t[0..] == t;
    LexStep(s, t, 0);
    LexStep(s, t, 1);
    LexStep(s, t, 2);
    LexStep(s, t, 3);
    LexStep(s, t, 4);
  }

  /** Among the rules that match one query, `Compare` ranks exactly by specificity: the more specific rule is
      the greater, and conversely. */
  lemma CompareIsSpecificity(a: Key, b: Key, q: Query)
    requires Matches(a, q) && Matches(b, q)
    ensures Compare(a, b) > 0 <==> LexGreater(Specificity(a), Specificity(b))
  {
    LexSeven(Specificity(a), Specificity(b));
    StrCmpSymmetric(a.processName, b.processName);
    StrCmpSymmetric(a.filePath, b.filePath);
    assert StrCmp(a.processName, b.processName) > 0 <==> a.processName != [] && b.processName == [];
    assert StrCmp(a.filePath, b.filePath) > 0 <==> a.filePath != [] && b.filePath == [];
  }
}
