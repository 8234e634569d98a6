/**
 The value tree of the session file (struct Json in src/core/session.cpp) and the
 ascending key order in which std::map iterates.

 A std::string is modelled as a Dafny string whose characters stand for its bytes.
 A double is modelled by the text `ostream << setprecision(17)` prints for it; see
 `NumberFormat` below.
 */
module JsonTree {
  import opened Options

  datatype Json =
    | Null
    | Bool(flag: bool)
    | Number(lexeme: string)
    | String(text: string)
    | Array(items: seq<Json>)
    | Object(fields: map<string, Json>)

  /** What std::from_chars followed by printing does to a number's text: None when the
      text is out of range for a double, otherwise the printed form of the double read. */
  type NumberFormat = string -> Option<string>

  /** Byte-wise lexicographic order, the order of std::map<std::string, Json>. */
  predicate Precedes(a: string, b: string) {
    if b == "" then false
    else if a == "" then true
    else a[0] < b[0] || (a[0] == b[0] && Precedes(a[1..], b[1..]))
  }

  lemma {:induction false} PrecedesTotal(a: string, b: string)
    ensures Precedes(a, b) || a == b || Precedes(b, a)
  {
    if a != "" && b != "" && a[0] == b[0] {
      PrecedesTotal(a[1..], b[1..]);
      assert a == [a[0]] + a[1..] && b == [b[0]] + b[1..];
    }
  }

  lemma {:induction false} PrecedesAsymmetric(a: string, b: string)
    requires Precedes(a, b)
    ensures !Precedes(b, a) && a != b
  {
    if a != "" && a[0] == b[0] {
      PrecedesAsymmetric(a[1..], b[1..]);
    }
  }

  lemma {:induction false} PrecedesTransitive(a: string, b: string, c: string)
    requires Precedes(a, b) && Precedes(b, c)
    ensures Precedes(a, c)
  {
    if a != "" && a[0] == b[0] == c[0] {
      PrecedesTransitive(a[1..], b[1..], c[1..]);
    }
  }

  predicate IsLeast(key: string, keys: set<string>) {
    key in keys && forall other | other in keys :: other == key || Precedes(key, other)
  }

  lemma {:induction false} LeastExists(keys: set<string>) returns (least: string)
    requires keys != {}
    ensures IsLeast(least, keys)
    decreases |keys|
  {
    least :| least in keys;
    var rest := keys - {least};
    if rest != {} {
      var candidate := LeastExists(rest);
      PrecedesTotal(least, candidate);
      if Precedes(candidate, least) {
        least := candidate;
      } else {
        forall other | other in rest ensures other == least || Precedes(least, other) {
          if other != candidate {
            PrecedesTransitive(least, candidate, other);
          }
        }
      }
    }
  }

  /** The keys of a std::map in iteration order. */
  function SortedKeys(keys: set<string>): (sorted: seq<string>)
    ensures |sorted| == |keys|
    ensures forall key :: key in sorted <==> key in keys
    ensures forall i, j | 0 <= i < j < |sorted| :: Precedes(sorted[i], sorted[j])
    decreases |keys|
  {
    if keys == {} then []
    else
      assert exists key :: IsLeast(key, keys) by { var _ := LeastExists(keys); }
      assert forall a, b | IsLeast(a, keys) && IsLeast(b, keys) :: a == b by {
        forall a, b | IsLeast(a, keys) && IsLeast(b, keys) ensures a == b {
          if a != b {
            PrecedesAsymmetric(a, b);
          }
        }
      }
      var least :| least in keys && IsLeast(least, keys);
      [least] + SortedKeys(keys - {least})
  }

  /** Strictly ascending sequences over the same keys are equal, so iteration order is fixed. */
  lemma {:induction false} AscendingUnique(a: seq<string>, b: seq<string>)
    requires forall i, j | 0 <= i < j < |a| :: Precedes(a[i], a[j])
    requires forall i, j | 0 <= i < j < |b| :: Precedes(b[i], b[j])
    requires forall key :: key in a <==> key in b
    ensures a == b
  {
    assert a != [] ==> a[0] in b;
    assert b != [] ==> b[0] in a;
    if a != [] {
      if a[0] != b[0] {
        PrecedesAsymmetric(a[0], b[0]);
      }
      forall key ensures key in a[1..] <==> key in b[1..] {
        if key in a[1..] {
          PrecedesAsymmetric(a[0], key);
          assert key in a && key in b;
        }
        if key in b[1..] {
          PrecedesAsymmetric(b[0], key);
          assert key in b && key in a;
        }
      }
      AscendingUnique(a[1..], b[1..]);
      assert a == [a[0]] + a[1..] && b == [b[0]] + b[1..];
    }
  }
}
