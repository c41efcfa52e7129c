/** Values shared by every part of the pipeline: the three states of a dictionary key,
    the Python exceptions the core can raise, and a result type that carries them. */
module Common {

  datatype Option<+T> = None | Some(value: T)

  /** A Python value that may be `None`. */
  datatype Nullable<+T> = Null | Val(value: T)

  /** A key of a record dictionary: missing, or present with a value that may be `None`. */
  datatype Field<+T> = Absent | Present(value: Nullable<T>)

  /** The exceptions the modelled code can raise, or that the database raises for it. */
  datatype Error =
    | KeyError(key: string)    // `d[key]` on a missing key
    | AttributeError           // a string method called on `None`
    | TypeError                // `None` compared with or added to a number
    | ValueError               // `datetime.fromisoformat` rejected its argument
    | NotNullViolation         // a row whose `coin_id` is NULL
    | CardinalityViolation     // one INSERT ... ON CONFLICT statement touching a key twice

  datatype Result<+T> = Ok(value: T) | Err(error: Error)

  /** `d.get(key, default)`: only a missing key yields the default; a present `None` stays `None`. */
  function Get<T>(f: Field<T>, default: T): (v: Nullable<T>)
    ensures f.Absent? ==> v == Val(default)
    ensures f.Present? ==> v == f.value
  {
    match f
    case Absent => Val(default)
    case Present(x) => x
  }

  /** `d.get(key)`: a missing key yields `None`. */
  function GetOrNull<T>(f: Field<T>): (v: Nullable<T>)
    ensures f.Absent? ==> v == Null
    ensures f.Present? ==> v == f.value
  {
    match f
    case Absent => Null
    case Present(x) => x
  }

  /** `d[key]`: a missing key raises `KeyError(key)`. */
  function Index<T>(f: Field<T>, key: string): (r: Result<Nullable<T>>)
    ensures r.Err? <==> f.Absent?
    ensures r.Err? ==> r.error == KeyError(key)
    ensures r.Ok? ==> r.value == f.value
  {
    match f
    case Absent => Err(KeyError(key))
    case Present(x) => Ok(x)
  }

  function Abs(x: real): (r: real)
    ensures r >= 0.0 && (r == x || r == -x)
  {
    if x < 0.0 then -x else x
  }

  /** `[f(x) for x in s]`, built front to back. */
  function Map<A, B>(f: A -> B, s: seq<A>): seq<B> {
    if s == [] then [] else Map(f, s[..|s| - 1]) + [f(s[|s| - 1])]
  }

  lemma {:induction false} MapAt<A, B>(f: A -> B, s: seq<A>)
    ensures |Map(f, s)| == |s|
    ensures forall i :: 0 <= i < |s| ==> Map(f, s)[i] == f(s[i])
  {
    if s != [] {
      MapAt(f, s[..|s| - 1]);
    }
  }

  /** The blocks of `blocks` one after the other, built front to back. */
  function Flatten<A>(blocks: seq<seq<A>>): seq<A> {
    if blocks == [] then [] else Flatten(blocks[..|blocks| - 1]) + blocks[|blocks| - 1]
  }

  /** Blocks of three elements each: block `k` is at positions `3k` to `3k + 2`. */
  lemma {:induction false} FlattenTriples<A>(blocks: seq<seq<A>>)
    requires forall k :: 0 <= k < |blocks| ==> |blocks[k]| == 3
    ensures |Flatten(blocks)| == 3 * |blocks|
    ensures forall k :: 0 <= k < |blocks| ==> Flatten(blocks)[3 * k..3 * k + 3] == blocks[k]
  {
    if blocks != [] {
      var init := blocks[..|blocks| - 1];
      FlattenTriples(init);
      var all := Flatten(blocks);
      assert all == Flatten(init) + blocks[|blocks| - 1];
      forall k | 0 <= k < |blocks| ensures all[3 * k..3 * k + 3] == blocks[k] {
        if k < |init| {
          assert all[3 * k..3 * k + 3] == Flatten(init)[3 * k..3 * k + 3];
        }
      }
    }
  }

  /** `[f(x) for x in s]` for an `f` that may raise: the first exception ends the whole list. */
  function Collect<A, B>(f: A -> Result<B>, s: seq<A>): Result<seq<B>> {
    if s == [] then Ok([])
    else match Collect(f, s[..|s| - 1])
      case Err(e) => Err(e)
      case Ok(prev) =>
        match f(s[|s| - 1])
        case Err(e) => Err(e)
        case Ok(y) => Ok(prev + [y])
  }

  /** The list is built exactly when every element yields a value; it then holds those values in
      order. Otherwise the exception is that of the first element that fails. */
  lemma {:induction false} CollectMeaning<A, B>(f: A -> Result<B>, s: seq<A>)
    ensures Collect(f, s).Ok? <==> forall i :: 0 <= i < |s| ==> f(s[i]).Ok?
    ensures Collect(f, s).Ok? ==>
      (&& |Collect(f, s).value| == |s|
       && forall i :: 0 <= i < |s| ==> Collect(f, s).value[i] == f(s[i]).value)
    ensures Collect(f, s).Err? ==>
      (exists k :: 0 <= k < |s|
        && f(s[k]) == Err(Collect(f, s).error)
        && forall i :: 0 <= i < k ==> f(s[i]).Ok?)
  {
    if s != [] {
      var init := s[..|s| - 1];
      CollectMeaning(f, init);
      assert forall i :: 0 <= i < |init| ==> init[i] == s[i];
    }
  }

  /** Building the list one element further. */
  lemma CollectAppend<A, B>(f: A -> Result<B>, s: seq<A>, i: nat)
    requires i < |s|
    ensures Collect(f, s[..i + 1]) ==
      match Collect(f, s[..i])
      case Err(e) => Err(e)
      case Ok(prev) =>
        match f(s[i])
        case Err(e) => Err(e)
        case Ok(y) => Ok(prev + [y])
  {
    assert s[..i + 1][..i] == s[..i];
  }

  /** Once a prefix fails, the whole list fails with the same exception. */
  lemma {:induction false} CollectErrorPrefix<A, B>(f: A -> Result<B>, s: seq<A>, n: nat)
    requires n <= |s| && Collect(f, s[..n]).Err?
    ensures Collect(f, s) == Collect(f, s[..n])
    decreases |s|
  {
    if n < |s| {
      var init := s[..|s| - 1];
      assert init[..n] == s[..n];
      CollectErrorPrefix(f, init, n);
    } else {
      assert s[..n] == s;
    }
  }
}
