/** Shared vocabulary of the model: an Option type, identifiers, and the JavaScript
 *  string and array primitives that the routes and components rely on
 *  (String.prototype.trim, substring(0, n), Array.prototype.indexOf and
 *  Array.prototype.splice(start, 1)). */
module Common {

  datatype Option<T> = None | Some(value: T)

  /** MongoDB ObjectIds and their string forms; they are only ever compared by value. */
  type Id = nat

  /** JavaScript truthiness of an optional string: absent (null/undefined) and '' are falsy. */
  predicate Truthy(s: Option<string>) {
    s.Some? && s.value != ""
  }

  /** The characters String.prototype.trim strips: ECMAScript WhiteSpace and LineTerminator. */
  predicate IsJsSpace(c: char) {
    || c == ' ' || c == '\t' || c == '\n' || c == '\r' || c == '\U{000B}' || c == '\U{000C}'
    || c == '\U{00A0}' || c == '\U{1680}' || ('\U{2000}' <= c <= '\U{200A}')
    || c == '\U{2028}' || c == '\U{2029}' || c == '\U{202F}' || c == '\U{205F}'
    || c == '\U{3000}' || c == '\U{FEFF}'
  }

  /** Every character is white space (the empty string included). */
  predicate IsBlank(s: string) {
    forall i :: 0 <= i < |s| ==> IsJsSpace(s[i])
  }

  /** Drops the leading white space: the result is the longest suffix not starting with a space. */
  function TrimStart(s: string): (r: string)
    ensures |r| <= |s| && r == s[|s| - |r|..]
    ensures IsBlank(s[..|s| - |r|])
    ensures r != [] ==> !IsJsSpace(r[0])
  {
    if s != [] && IsJsSpace(s[0]) then
      var t := TrimStart(s[1..]);
      assert s[..|s| - |t|] == [s[0]] + s[1..][..|s| - 1 - |t|];
      t
    else s
  }

  /** Drops the trailing white space: the result is the longest prefix not ending with a space. */
  function TrimEnd(s: string): (r: string)
    ensures |r| <= |s| && r == s[..|r|]
    ensures IsBlank(s[|r|..])
    ensures r != [] ==> !IsJsSpace(r[|r| - 1])
  {
    if s != [] && IsJsSpace(s[|s| - 1]) then
      var t := TrimEnd(s[..|s| - 1]);
      assert s[|t|..] == s[..|s| - 1][|t|..] + [s[|s| - 1]];
      t
    else s
  }

  /** String.prototype.trim: the middle of `s` once both runs of white space are gone. */
  function Trim(s: string): (r: string)
    ensures |r| <= |s|
    ensures r == [] <==> IsBlank(s)
    ensures r != [] ==> !IsJsSpace(r[0]) && !IsJsSpace(r[|r| - 1])
  {
    var t := TrimStart(s);
    var r := TrimEnd(t);
    TrimBlankIff(s, t, r);
    r
  }

  /** Trim's result is a slice of `s` with only white space before and after it. */
  lemma TrimIsMiddle(s: string)
    ensures exists i :: 0 <= i <= |s| - |Trim(s)| && Trim(s) == s[i..i + |Trim(s)|]
                        && IsBlank(s[..i]) && IsBlank(s[i + |Trim(s)|..])
  {
    var t := TrimStart(s);
    var r := TrimEnd(t);
    assert Trim(s) == r;
    SliceBetweenBlanks(s, t, r);
  }

  /** A prefix r of a suffix t of s, with blank runs cut off both sides, is a middle slice of s. */
  lemma SliceBetweenBlanks(s: string, t: string, r: string)
    requires |t| <= |s| && t == s[|s| - |t|..] && IsBlank(s[..|s| - |t|])
    requires |r| <= |t| && r == t[..|r|] && IsBlank(t[|r|..])
    ensures var i := |s| - |t|;
            && 0 <= i <= |s| - |r| && r == s[i..i + |r|] && IsBlank(s[..i]) && IsBlank(s[i + |r|..])
  {
    var i := |s| - |t|;
    assert s[i..i + |r|] == t[..|r|];
    assert s[i + |r|..] == t[|r|..];
  }

  /** The two halves of `Trim(s) == [] <==> IsBlank(s)`, for t the suffix TrimStart leaves. */
  lemma TrimBlankIff(s: string, t: string, r: string)
    requires t == TrimStart(s) && r == TrimEnd(t)
    ensures r == [] <==> IsBlank(s)
    ensures r != [] ==> !IsJsSpace(r[0])
  {
    var lead := |s| - |t|;
    if r == [] {
      assert t[|r|..] == t;
      assert IsBlank(t);
      assert IsBlank(s[..lead]);
      forall i | 0 <= i < |s| ensures IsJsSpace(s[i]) {
        if i < lead {
          assert s[i] == s[..lead][i];
        } else {
          assert s[i] == t[i - lead];
        }
      }
    } else {
      assert t != [];
      assert r[0] == t[0];
      assert t[0] == s[lead];
    }
  }

  /** No white space at either end: the strings trim leaves as they are. */
  predicate IsTrimmed(s: string) {
    s == [] || (!IsJsSpace(s[0]) && !IsJsSpace(s[|s| - 1]))
  }

  /** Trim leaves a string alone exactly when it has no white space at either end. */
  lemma TrimmedIff(s: string)
    ensures Trim(s) == s <==> IsTrimmed(s)
    ensures IsTrimmed(Trim(s))
  {
    if IsTrimmed(s) && s != [] {
      assert TrimStart(s) == s;
      assert TrimEnd(s) == s;
    }
  }

  /** Trimming twice is trimming once. */
  lemma TrimIdempotent(s: string)
    ensures Trim(Trim(s)) == Trim(s)
  {
    var r := Trim(s);
    assert TrimStart(r) == r;
    assert TrimEnd(r) == r;
  }

  /** String.prototype.substring(0, n) for a non-negative n: at most the first n characters. */
  function Prefix(s: string, n: nat): (r: string)
    ensures |r| == if |s| < n then |s| else n
    ensures r == s[..|r|]
  {
    if |s| <= n then s else s[..n]
  }

  /** Array.prototype.find-style lookup (and MongoDB findOne over a collection in natural
   *  order): the position of the first element satisfying p, if any. */
  function FindFirst<T>(s: seq<T>, p: T -> bool): (r: Option<nat>)
    ensures r.Some? ==> r.value < |s| && p(s[r.value])
    ensures r.Some? ==> forall j :: 0 <= j < r.value ==> !p(s[j])
    ensures r.None? <==> forall j :: 0 <= j < |s| ==> !p(s[j])
  {
    if s == [] then None
    else if p(s[0]) then Some(0)
    else
      match FindFirst(s[1..], p)
      case None => None
      case Some(k) => Some(k + 1)
  }

  /** No element occurs twice. */
  predicate NoDup<T(==)>(s: seq<T>) {
    forall i, j :: 0 <= i < j < |s| ==> s[i] != s[j]
  }

  /** Array.prototype.indexOf: the first position of x, or -1 when x does not occur. */
  function IndexOf<T(==)>(s: seq<T>, x: T): (r: int)
    ensures -1 <= r < |s|
    ensures r == -1 <==> x !in s
    ensures 0 <= r ==> s[r] == x && x !in s[..r]
  {
    if s == [] then -1
    else if s[0] == x then 0
    else
      var k := IndexOf(s[1..], x);
      assert s[1..][..k + 1] == s[..k + 2][1..] by { if k >= 0 {} }
      if k == -1 then -1 else k + 1
  }

  /** The position Array.prototype.splice starts at: a negative start counts from the end
   *  (clamped at 0), a start past the end is clamped to the length. */
  function SpliceStart(len: nat, start: int): (k: nat)
    ensures k <= len
    ensures 0 <= start <= len ==> k == start
    ensures -(len as int) <= start < 0 ==> k == len + start
  {
    if start < 0 then (if len + start < 0 then 0 else len + start)
    else if start < len then start else len
  }

  /** Array.prototype.splice(start, 1) applied to s: removes the one element at the
   *  (normalised) start position, if there is one. */
  function SpliceOne<T>(s: seq<T>, start: int): (r: seq<T>)
    ensures 0 <= start < |s| ==> r == s[..start] + s[start + 1..]
    ensures s != [] && start == -1 ==> r == s[..|s| - 1]
    ensures start >= |s| ==> r == s
    ensures |r| == if s == [] || start >= |s| then |s| else |s| - 1
    ensures multiset(r) <= multiset(s)
    ensures 0 <= start < |s| ==> multiset(r) == multiset(s) - multiset{s[start]}
  {
    var k := SpliceStart(|s|, start);
    if k < |s| then
      assert s == s[..k] + [s[k]] + s[k + 1..];
      s[..k] + s[k + 1..]
    else s
  }

  /** The element at position a of `s` with position k removed. */
  lemma RemoveAtIndex<T>(s: seq<T>, k: nat, a: nat)
    requires k < |s| && a < |s| - 1
    ensures (s[..k] + s[k + 1..])[a] == if a < k then s[a] else s[a + 1]
  {
  }

  /** Removing the element at position k takes exactly that element out of the multiset. */
  lemma RemoveAtMultiset<T>(s: seq<T>, k: nat)
    requires k < |s|
    ensures multiset(s[..k] + s[k + 1..]) == multiset(s) - multiset{s[k]}
  {
    assert s == s[..k] + [s[k]] + s[k + 1..];
  }

  /** Removing position k keeps the membership of every other value. */
  lemma RemoveAtMembers<T>(s: seq<T>, k: nat)
    requires k < |s|
    ensures forall x :: x != s[k] ==> (x in s[..k] + s[k + 1..] <==> x in s)
  {
    RemoveAtMultiset(s, k);
    forall x | x != s[k] ensures x in s[..k] + s[k + 1..] <==> x in s {
      assert x in multiset(s[..k] + s[k + 1..]) <==> x in multiset(s);
    }
  }

  /** Removing position k from a duplicate-free sequence leaves one without duplicates
   *  and without the removed value. */
  lemma RemoveAtNoDup<T>(s: seq<T>, k: nat)
    requires k < |s|
    ensures NoDup(s) ==> NoDup(s[..k] + s[k + 1..]) && s[k] !in s[..k] + s[k + 1..]
  {
    if NoDup(s) {
      var r := s[..k] + s[k + 1..];
      forall a, b | 0 <= a < b < |r| ensures r[a] != r[b] {
        RemoveAtIndex(s, k, a);
        RemoveAtIndex(s, k, b);
      }
    }
  }

  /** Pushing a value that does not occur keeps a sequence duplicate-free. */
  lemma PushNoDup<T>(s: seq<T>, x: T)
    ensures NoDup(s) && x !in s ==> NoDup(s + [x])
  {
    if NoDup(s) && x !in s {
      forall a, b | 0 <= a < b < |s| + 1 ensures (s + [x])[a] != (s + [x])[b] {
        if b == |s| {
          assert (s + [x])[a] == s[a];
        }
      }
    }
  }

  /** Pushing an element that was absent and then splicing it out at the index
   *  indexOf reports gives back the original array. */
  lemma PushThenSpliceRestores<T>(s: seq<T>, x: T)
    requires x !in s
    ensures IndexOf(s + [x], x) == |s|
    ensures SpliceOne(s + [x], IndexOf(s + [x], x)) == s
  {
    assert (s + [x])[..|s|] == s;
  }

  /** Array.prototype.filter: the elements satisfying f, in their original order. */
  function Filter<T(!new)>(s: seq<T>, f: T -> bool): (r: seq<T>)
    ensures |r| <= |s|
    ensures forall x :: x in r <==> x in s && f(x)
  {
    if s == [] then []
    else (if f(s[0]) then [s[0]] else []) + Filter(s[1..], f)
  }

  /** Filtering commutes with concatenation: kept elements keep their relative order. */
  lemma {:induction false} FilterAppend<T(!new)>(a: seq<T>, b: seq<T>, f: T -> bool)
    ensures Filter(a + b, f) == Filter(a, f) + Filter(b, f)
  {
    if a == [] {
      assert a + b == b;
    } else {
      assert (a + b)[1..] == a[1..] + b;
      FilterAppend(a[1..], b, f);
    }
  }

  /** `r` is the subsequence of `s` at the strictly increasing positions `m`. */
  ghost predicate SubsequenceAt<T>(s: seq<T>, r: seq<T>, m: seq<nat>) {
    && |m| == |r|
    && (forall i :: 0 <= i < |m| ==> m[i] < |s| && r[i] == s[m[i]])
    && (forall i, j :: 0 <= i < j < |m| ==> m[i] < m[j])
  }

  /** Positions in the tail of `s` are positions in `s`, one further on. */
  lemma ShiftPositions<T>(s: seq<T>, r: seq<T>, m: seq<nat>) returns (m': seq<nat>)
    requires s != [] && SubsequenceAt(s[1..], r, m)
    ensures SubsequenceAt(s, r, m')
    ensures forall i :: 0 <= i < |m'| ==> m'[i] >= 1
  {
    m' := seq(|m|, i requires 0 <= i < |m| => m[i] + 1);
    forall i | 0 <= i < |m'| ensures m'[i] < |s| && r[i] == s[m'[i]] {
      assert s[1..][m[i]] == s[m[i] + 1];
    }
  }

  /** Keeping the head of `s` adds position 0 in front. */
  lemma ConsPosition<T>(s: seq<T>, r: seq<T>, m: seq<nat>)
    requires s != [] && SubsequenceAt(s, r, m)
    requires forall i :: 0 <= i < |m| ==> m[i] >= 1
    ensures SubsequenceAt(s, [s[0]] + r, [0] + m)
  {
    var r', m' := [s[0]] + r, [0] + m;
    forall i | 0 <= i < |m'| ensures m'[i] < |s| && r'[i] == s[m'[i]] {
      if i > 0 {
        assert m'[i] == m[i - 1] && r'[i] == r[i - 1];
      }
    }
    forall i, j | 0 <= i < j < |m'| ensures m'[i] < m'[j] {
      assert m'[j] == m[j - 1];
      if i > 0 {
        assert m'[i] == m[i - 1];
      }
    }
  }

  /** The filtered array is a subsequence: its elements come from strictly increasing
   *  positions of the original. */
  lemma {:induction false} FilterPositions<T(!new)>(s: seq<T>, f: T -> bool) returns (m: seq<nat>)
    ensures SubsequenceAt(s, Filter(s, f), m)
  {
    if s == [] {
      m := [];
    } else {
      var rest := FilterPositions(s[1..], f);
      var shifted := ShiftPositions(s, Filter(s[1..], f), rest);
      if f(s[0]) {
        assert Filter(s, f) == [s[0]] + Filter(s[1..], f);
        ConsPosition(s, Filter(s[1..], f), shifted);
        m := [0] + shifted;
      } else {
        assert Filter(s, f) == Filter(s[1..], f);
        m := shifted;
      }
    }
  }

  /** A filter every element passes returns the array as it was. */
  lemma {:induction false} FilterAllPass<T(!new)>(s: seq<T>, f: T -> bool)
    requires forall x :: x in s ==> f(x)
    ensures Filter(s, f) == s
  {
    if s != [] {
      assert forall x :: x in s[1..] ==> x in s;
      FilterAllPass(s[1..], f);
    }
  }

  /** Multiplying by a non-negative factor keeps order. */
  lemma MulMonotone(x: int, y: int, n: int)
    requires x <= y && n >= 0
    ensures x * n <= y * n
  {
  }
}
