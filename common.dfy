// Shared vocabulary of the model: nullable references, the exceptions the
// modelled code raises itself, and the two LINQ searches it relies on
// (FirstOrDefault with a predicate, and filtering in order).
module Common {

  /** A C# reference that may be null. */
  datatype Option<+T> = None | Some(value: T)

  /** The .NET exceptions raised by the modelled code itself (not by host collaborators). */
  datatype Fault =
    | ArgumentNull(parameter: string)   // Condition.Requires(x).IsNotNull()
    | ArgumentEmpty(parameter: string)  // Condition.Requires(x).IsNotNullOrEmpty()
    | DuplicateKey(key: string)         // Dictionary.Add with a key already present
    | NullReference                     // a member read through a null reference

  /** Either the value a call returns or the exception it throws. */
  datatype Outcome<+T> = Ok(value: T) | Thrown(fault: Fault)

  /** string.IsNullOrEmpty */
  predicate NullOrEmpty(s: Option<string>) {
    s.None? || s.value == ""
  }

  /** Enumerable.FirstOrDefault(s, p): the first element of `s` satisfying `p`, or null. */
  function FirstWhere<T>(s: seq<T>, p: T -> bool): (r: Option<T>)
    ensures r.None? <==> forall i :: 0 <= i < |s| ==> !p(s[i])
    ensures r.Some? ==> exists i :: 0 <= i < |s| && s[i] == r.value && p(s[i]) &&
                                   forall j :: 0 <= j < i ==> !p(s[j])
  {
    if |s| == 0 then None
    else if p(s[0]) then Some(s[0])
    else
      var r := FirstWhere(s[1..], p);
      assert r.Some? ==> exists i :: 1 <= i < |s| && s[i] == r.value && p(s[i]) &&
                                     forall j :: 0 <= j < i ==> !p(s[j]) by {
        if r.Some? {
          var k :| 0 <= k < |s[1..]| && s[1..][k] == r.value && p(s[1..][k]) &&
                   forall j :: 0 <= j < k ==> !p(s[1..][j]);
          assert s[k + 1] == r.value;
          assert forall j :: 0 <= j < k + 1 ==> !p(s[j]) by {
            forall j | 0 <= j < k + 1 ensures !p(s[j]) {
              if j > 0 { assert s[j] == s[1..][j - 1]; }
            }
          }
        }
      }
      r
  }

  /** The elements of `s` that satisfy `p`, in their order in `s`, each once per occurrence. */
  function Filter<T>(s: seq<T>, p: T -> bool): (r: seq<T>)
    ensures |r| <= |s|
    ensures forall i :: 0 <= i < |r| ==> r[i] in s && p(r[i])
    ensures forall i :: 0 <= i < |s| && p(s[i]) ==> s[i] in r
  {
    if |s| == 0 then []
    else
      var init, last := s[..|s| - 1], s[|s| - 1];
      assert s == init + [last];
      Filter(init, p) + (if p(last) then [last] else [])
  }

  /** Filtering a concatenation filters each part: what one element contributes
      never depends on the elements around it. */
  lemma {:induction false} FilterAppend<T>(a: seq<T>, b: seq<T>, p: T -> bool)
    ensures Filter(a + b, p) == Filter(a, p) + Filter(b, p)
  {
    if |b| == 0 {
      assert a + b == a;
    } else {
      var init, last := b[..|b| - 1], b[|b| - 1];
      assert a + b == (a + init) + [last];
      assert (a + b)[..|a + b| - 1] == a + init;
      FilterAppend(a, init, p);
    }
  }

  /** ToUpperInvariant on one character, restricted to the ASCII letters. */
  function FoldCase(c: char): char {
    if 'a' <= c <= 'z' then (c as int - 32) as char else c
  }

  /** String.Equals(a, b, StringComparison.InvariantCultureIgnoreCase) for a non-null `b`. */
  predicate EqualsIgnoreCase(a: string, b: string) {
    |a| == |b| && forall i :: 0 <= i < |a| ==> FoldCase(a[i]) == FoldCase(b[i])
  }

  /** Case-insensitive equality is an equivalence relation. */
  lemma EqualsIgnoreCaseIsEquivalence(a: string, b: string, c: string)
    ensures EqualsIgnoreCase(a, a)
    ensures EqualsIgnoreCase(a, b) ==> EqualsIgnoreCase(b, a)
    ensures EqualsIgnoreCase(a, b) && EqualsIgnoreCase(b, c) ==> EqualsIgnoreCase(a, c)
  {
  }

  /** Strings that are equal up to letter case fold to the same upper-case string. */
  lemma {:induction false} EqualsIgnoreCaseFolds(a: string, b: string)
    ensures EqualsIgnoreCase(a, b) <==> FoldAll(a) == FoldAll(b)
  {
    if EqualsIgnoreCase(a, b) {
      assert forall i :: 0 <= i < |a| ==> FoldAll(a)[i] == FoldAll(b)[i];
    }
    if FoldAll(a) == FoldAll(b) {
      assert forall i :: 0 <= i < |a| ==> FoldCase(a[i]) == FoldAll(a)[i];
    }
  }

  /** The string upper-cased letter by letter. */
  function FoldAll(s: string): (r: string)
    ensures |r| == |s| && forall i :: 0 <= i < |s| ==> r[i] == FoldCase(s[i])
  {
    seq(|s|, i requires 0 <= i < |s| => FoldCase(s[i]))
  }
}
