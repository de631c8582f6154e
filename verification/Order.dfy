/** Strings in the order `sorted` puts them: by their code points, the shorter first. */
module Order {
  predicate Before(a: string, b: string) {
    b != "" && (a == "" || a[0] < b[0] || (a[0] == b[0] && Before(a[1..], b[1..])))
  }

  /** At the first place they differ the one has the lesser character, or has ended. */
  predicate DiffersAt(a: string, b: string, k: nat) {
    k <= |a| && k < |b| && a[..k] == b[..k] && (k == |a| || a[k] < b[k])
  }

  lemma {:induction false} BeforeDiffers(a: string, b: string) returns (k: nat)
    requires Before(a, b)
    ensures DiffersAt(a, b, k)
  {
    k := 0;
    if a != "" && a[0] == b[0] {
      k := BeforeDiffers(a[1..], b[1..]);
      assert a[..k + 1] == [a[0]] + a[1..][..k] && b[..k + 1] == [b[0]] + b[1..][..k];
      k := k + 1;
    }
  }

  lemma {:induction false} DiffersBefore(a: string, b: string, k: nat)
    requires DiffersAt(a, b, k)
    ensures Before(a, b)
  {
    if k > 0 {
      assert a[0] == a[..k][0] && b[0] == b[..k][0];
      assert a[1..][..k - 1] == a[..k][1..] && b[1..][..k - 1] == b[..k][1..];
      DiffersBefore(a[1..], b[1..], k - 1);
    }
  }

  lemma BeforeIs(a: string, b: string)
    ensures Before(a, b) <==> exists k: nat :: DiffersAt(a, b, k)
  {
    if Before(a, b) {
      var k := BeforeDiffers(a, b);
    }
    if k: nat :| DiffersAt(a, b, k) {
      DiffersBefore(a, b, k);
    }
  }

  lemma {:induction false} BeforeIsTotal(a: string, b: string)
    ensures !Before(a, a)
    ensures a == b || Before(a, b) || Before(b, a)
    ensures !(Before(a, b) && Before(b, a))
  {
    if a != "" {
      BeforeIsTotal(a[1..], if b != "" then b[1..] else "");
      if b != "" && a[0] == b[0] && a[1..] == b[1..] {
        assert a == [a[0]] + a[1..] && b == [b[0]] + b[1..];
      }
    }
  }

  lemma {:induction false} BeforeIsTransitive(a: string, b: string, c: string)
    requires Before(a, b) && Before(b, c)
    ensures Before(a, c)
  {
    if a != "" && a[0] == b[0] == c[0] {
      BeforeIsTransitive(a[1..], b[1..], c[1..]);
    }
  }

  predicate Ascending(keys: seq<string>) {
    forall i, j :: 0 <= i < j < |keys| ==> Before(keys[i], keys[j])
  }

  function Insert(keys: seq<string>, key: string): seq<string> {
    if keys != [] && Before(keys[0], key) then [keys[0]] + Insert(keys[1..], key) else [key] + keys
  }

  lemma {:induction false} InsertSorts(keys: seq<string>, key: string)
    requires Ascending(keys) && key !in keys
    ensures Ascending(Insert(keys, key))
    ensures forall k :: k in Insert(keys, key) <==> k in keys || k == key
  {
    if keys != [] {
      BeforeIsTotal(keys[0], key);
      if Before(keys[0], key) {
        InsertSorts(keys[1..], key);
        assert forall k :: k in keys <==> k == keys[0] || k in keys[1..];
        var rest := Insert(keys[1..], key);
        forall j | 0 <= j < |rest| ensures Before(keys[0], rest[j]) {
          assert rest[j] in rest;
        }
      } else {
        assert key != keys[0];
        forall j | 0 <= j < |keys| ensures Before(key, keys[j]) {
          if j > 0 {
            BeforeIsTransitive(key, keys[0], keys[j]);
          }
        }
      }
    }
  }

  /** Two ascending lists of the same strings are one. */
  lemma {:induction false} AscendingIsUnique(a: seq<string>, b: seq<string>)
    requires Ascending(a) && Ascending(b) && forall k :: k in a <==> k in b
    ensures a == b
  {
    HasFirst(a);
    HasFirst(b);
    if a != [] {
      LeastIsFirst(a, b[0]);
      LeastIsFirst(b, a[0]);
      BeforeIsTotal(a[0], b[0]);
      RestIsRest(a, b);
      AscendingIsUnique(a[1..], b[1..]);
    }
  }

  lemma HasFirst(keys: seq<string>)
    ensures keys != [] ==> keys[0] in keys
  {
  }

  lemma LeastIsFirst(keys: seq<string>, key: string)
    requires Ascending(keys) && key in keys
    ensures keys[0] == key || Before(keys[0], key)
  {
  }

  lemma RestIsRest(a: seq<string>, b: seq<string>)
    requires Ascending(a) && Ascending(b) && a != [] && b != [] && a[0] == b[0]
    requires forall k :: k in a <==> k in b
    ensures forall k :: k in a[1..] <==> k in b[1..]
  {
    BeforeIsTotal(a[0], a[0]);
    assert forall k :: k in a <==> k == a[0] || k in a[1..];
    assert forall k :: k in b <==> k == b[0] || k in b[1..];
  }

  /** The elements of a set, in order. */
  ghost function Sorted(s: set<string>): (keys: seq<string>)
    ensures Ascending(keys) && forall k :: k in keys <==> k in s
  {
    if s == {} then []
    else
      var key :| key in s;
      InsertSorts(Sorted(s - {key}), key);
      Insert(Sorted(s - {key}), key)
  }

  method Sort(s: set<string>) returns (keys: seq<string>)
    ensures keys == Sorted(s)
  {
    keys := [];
    var todo := s;
    while todo != {}
      invariant todo <= s && Ascending(keys)
      invariant forall k :: k in keys <==> k in s - todo
      decreases todo
    {
      var key :| key in todo;
      InsertSorts(keys, key);
      keys, todo := Insert(keys, key), todo - {key};
    }
    AscendingIsUnique(keys, Sorted(s));
  }
}
