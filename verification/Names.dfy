/** File names as byte strings, ordered byte by byte as `OsStr` is. */
module Names {

  type Byte = b: int | 0 <= b < 256

  type Name = seq<Byte>

  predicate Less(a: Name, b: Name) {
    if b == [] then false
    else if a == [] then true
    else a[0] < b[0] || (a[0] == b[0] && Less(a[1..], b[1..]))
  }

  predicate AtMost(a: Name, b: Name) {
    a == b || Less(a, b)
  }

  const DOT: Name := [46]
  const DOTDOT: Name := [46, 46]

  lemma {:induction false} Irreflexive(a: Name)
    ensures !Less(a, a)
  {
    if a != [] { Irreflexive(a[1..]); }
  }

  lemma {:induction false} Transitive(a: Name, b: Name, c: Name)
    requires Less(a, b) && Less(b, c)
    ensures Less(a, c)
  {
    if a != [] && a[0] == b[0] == c[0] { Transitive(a[1..], b[1..], c[1..]); }
  }

  lemma {:induction false} Trichotomy(a: Name, b: Name)
    ensures Less(a, b) || a == b || Less(b, a)
  {
    if a != [] && b != [] && a[0] == b[0] {
      Trichotomy(a[1..], b[1..]);
      assert a == [a[0]] + a[1..] && b == [b[0]] + b[1..];
    }
  }

  lemma Asymmetric(a: Name, b: Name)
    requires Less(a, b)
    ensures !Less(b, a) && a != b
  {
    Irreflexive(a);
    if Less(b, a) { Transitive(a, b, a); }
  }
}
