/** The byte-wise order of Rust strings, and sorted key vectors. */
module KeyOrder {
  import opened Utf8

  datatype Ordering = Lt | Eq | Gt {
    function Flip(): Ordering {
      match this case Lt => Gt case Eq => Eq case Gt => Lt
    }
  }

  function CompareKeys(a: seq<byte>, b: seq<byte>): Ordering {
    if a == [] then if b == [] then Eq else Lt
    else if b == [] then Gt
    else if a[0] < b[0] then Lt
    else if a[0] > b[0] then Gt
    else CompareKeys(a[1..], b[1..])
  }

  predicate KeyLess(a: seq<byte>, b: seq<byte>) {
    CompareKeys(a, b) == Lt
  }

  lemma {:induction false} CompareKeysFlip(a: seq<byte>, b: seq<byte>)
    ensures CompareKeys(b, a) == CompareKeys(a, b).Flip()
    ensures CompareKeys(a, b) == Eq <==> a == b
    decreases |a|
  {
    if a != [] && b != [] && a[0] == b[0] {
      CompareKeysFlip(a[1..], b[1..]);
      assert a == [a[0]] + a[1..] && b == [b[0]] + b[1..];
    }
  }

  lemma {:induction false} KeyLessTransitive(a: seq<byte>, b: seq<byte>, c: seq<byte>)
    requires KeyLess(a, b) && KeyLess(b, c)
    ensures KeyLess(a, c)
    decreases |a|
  {
    if a != [] && a[0] == b[0] == c[0] {
      KeyLessTransitive(a[1..], b[1..], c[1..]);
    }
  }

  predicate SortedKeys(keys: seq<seq<byte>>) {
    forall i, j | 0 <= i < j < |keys| :: KeyLess(keys[i], keys[j])
  }

  /** `slice::binary_search`: where `key` is, or where it belongs. */
  method BinarySearch(keys: seq<seq<byte>>, key: seq<byte>) returns (found: bool, at: nat)
    requires SortedKeys(keys)
    ensures found <==> key in keys
    ensures found ==> at < |keys| && keys[at] == key
    ensures !found ==> at <= |keys| && SortedKeys(keys[..at] + [key] + keys[at..])
  {
    hide CompareKeys;
    var lo, hi := 0, |keys|;
    while lo < hi
      invariant 0 <= lo <= hi <= |keys|
      invariant forall i | 0 <= i < lo :: KeyLess(keys[i], key)
      invariant forall i | hi <= i < |keys| :: KeyLess(key, keys[i])
    {
      var mid := (lo + hi) / 2;
      CompareKeysFlip(keys[mid], key);
      match CompareKeys(keys[mid], key) {
        case Eq => return true, mid;
        case Lt =>
          forall i | 0 <= i < mid ensures KeyLess(keys[i], key) {
            KeyLessTransitive(keys[i], keys[mid], key);
          }
          lo := mid + 1;
        case Gt =>
          forall i | mid < i < |keys| ensures KeyLess(key, keys[i]) {
            KeyLessTransitive(key, keys[mid], keys[i]);
          }
          hi := mid;
      }
    }
    found, at := false, lo;
    Between(keys, key, lo);
  }

  /** Where the search ends the key is absent and belongs. */
  lemma Between(keys: seq<seq<byte>>, key: seq<byte>, at: nat)
    requires SortedKeys(keys) && at <= |keys|
    requires forall i | 0 <= i < at :: KeyLess(keys[i], key)
    requires forall i | at <= i < |keys| :: KeyLess(key, keys[i])
    ensures key !in keys && SortedKeys(keys[..at] + [key] + keys[at..])
  {
    hide CompareKeys;
    CompareKeysFlip(key, key);
    forall i | 0 <= i < |keys| ensures keys[i] != key {
      CompareKeysFlip(keys[i], key);
    }
  }
}
