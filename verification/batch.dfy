/** The batch driver (`fetch_all_school_packs`): extract every school's pack in
    input order and concatenate the rows. A school whose extraction fails ends
    the whole batch with that school's error. */
module Batch {
  import opened Wrappers
  import opened Seqs
  import opened Pack

  /** The rows of each successful outcome, in order (empty for a failed one). */
  function RowsOf<T, E>(results: seq<Result<seq<T>, E>>): (r: seq<seq<T>>)
    ensures |r| == |results|
    ensures forall i | 0 <= i < |results| :: r[i] == results[i].GetOr([])
    decreases |results|
  {
    if |results| == 0 then []
    else RowsOf(results[..|results| - 1]) + [results[|results| - 1].GetOr([])]
  }

  /** Folds per-school outcomes in order, as the driver's loop does: the rows
      concatenate, and the first failure ends the fold with its error. */
  function Concatenate<T, E>(results: seq<Result<seq<T>, E>>): (r: Result<seq<T>, E>)
    ensures r.Ok? <==> forall i | 0 <= i < |results| :: results[i].Ok?
    decreases |results|
  {
    if |results| == 0 then Ok([])
    else
      var pre := results[..|results| - 1];
      match Concatenate(pre)
      case Err(e) => Err(e)
      case Ok(acc) =>
        match results[|results| - 1]
        case Err(e) => Err(e)
        case Ok(rows) => Ok(acc + rows)
  }

  /** On success the fold's rows are the outcomes' rows joined in order. */
  lemma {:induction false} ConcatenateJoins<T, E>(results: seq<Result<seq<T>, E>>)
    ensures Concatenate(results).Ok? ==> Concatenate(results).value == Join(RowsOf(results))
    decreases |results|
  {
    if |results| > 0 {
      var pre := results[..|results| - 1];
      ConcatenateJoins(pre);
      assert RowsOf(results)[..|pre|] == RowsOf(pre);
    }
  }

  /** On failure the fold's error is that of the first failing outcome. */
  lemma {:induction false} ConcatenateFirstFailure<T, E>(results: seq<Result<seq<T>, E>>)
    ensures Concatenate(results).Err? ==> exists i | 0 <= i < |results| ::
      && results[i] == Err(Concatenate(results).error)
      && forall j | 0 <= j < i :: results[j].Ok?
    decreases |results|
  {
    if |results| > 0 {
      var pre := results[..|results| - 1];
      ConcatenateFirstFailure(pre);
    }
  }

  /** The extraction outcome of each school, in school order. */
  function Extractions(schools: seq<School>, web: Web): (r: seq<Result<seq<PackRow>, PackError>>)
    ensures |r| == |schools|
    ensures forall i | 0 <= i < |schools| :: r[i] == FetchSchoolPack(schools[i], web)
  {
    seq(|schools|, i requires 0 <= i < |schools| => FetchSchoolPack(schools[i], web))
  }

  /** Models `fetch_all_school_packs`: the per-school rows concatenated in
      school order, or the error of the first school whose extraction fails. */
  function FetchAllSchoolPacks(schools: seq<School>, web: Web): (r: Result<seq<PackRow>, PackError>)
    ensures r.Ok? <==> forall i | 0 <= i < |schools| :: FetchSchoolPack(schools[i], web).Ok?
    ensures r.Ok? ==> r.value == Join(RowsOf(Extractions(schools, web)))
    ensures r.Err? ==> exists i | 0 <= i < |schools| ::
      && FetchSchoolPack(schools[i], web) == Err(r.error)
      && forall j | 0 <= j < i :: FetchSchoolPack(schools[j], web).Ok?
  {
    ConcatenateJoins(Extractions(schools, web));
    ConcatenateFirstFailure(Extractions(schools, web));
    Concatenate(Extractions(schools, web))
  }

  /** Combines the outcomes of two consecutive runs: the first failure wins,
      otherwise the rows concatenate. */
  function Then<T, E>(first: Result<seq<T>, E>, second: Result<seq<T>, E>): Result<seq<T>, E>
  {
    match first
    case Err(_) => first
    case Ok(a) =>
      match second
      case Err(_) => second
      case Ok(b) => Ok(a + b)
  }

  /** Combining outcomes is associative. */
  lemma ThenAssociative<T, E>(x: Result<seq<T>, E>, y: Result<seq<T>, E>, z: Result<seq<T>, E>)
    ensures Then(Then(x, y), z) == Then(x, Then(y, z))
  {
    if x.Ok? && y.Ok? && z.Ok? {
      assert x.value + y.value + z.value == x.value + (y.value + z.value);
    }
  }

  /** Folding one more outcome combines it with the fold so far. */
  lemma ConcatenateSnoc<T, E>(xs: seq<Result<seq<T>, E>>, x: Result<seq<T>, E>)
    ensures Concatenate(xs + [x]) == Then(Concatenate(xs), x)
  {
    assert (xs + [x])[..|xs|] == xs;
  }

  /** Splitting the outcomes anywhere splits the fold: run the first part,
      then the second. */
  lemma {:induction false} ConcatenateAppend<T, E>(a: seq<Result<seq<T>, E>>, b: seq<Result<seq<T>, E>>)
    ensures Concatenate(a + b) == Then(Concatenate(a), Concatenate(b))
    decreases |b|
  {
    if |b| == 0 {
      assert a + b == a;
      match Concatenate(a)
      case Err(_) =>
      case Ok(x) => assert x + [] == x;
    } else {
      var b' := b[..|b| - 1];
      var last := b[|b| - 1];
      assert a + b == (a + b') + [last];
      assert b == b' + [last];
      ConcatenateSnoc(a + b', last);
      ConcatenateSnoc(b', last);
      ConcatenateAppend(a, b');
      ThenAssociative(Concatenate(a), Concatenate(b'), last);
    }
  }

  /** The outcomes of a + b are those of a followed by those of b. */
  lemma ExtractionsAppend(a: seq<School>, b: seq<School>, web: Web)
    ensures Extractions(a + b, web) == Extractions(a, web) + Extractions(b, web)
  {
    var whole, parts := Extractions(a + b, web), Extractions(a, web) + Extractions(b, web);
    forall i | 0 <= i < |whole|
      ensures whole[i] == parts[i]
    {
      if i < |a| {
        assert (a + b)[i] == a[i];
      } else {
        assert (a + b)[i] == b[i - |a|];
      }
    }
  }

  /** Running the batch over a + b is running it over a, then over b. */
  lemma BatchAppend(a: seq<School>, b: seq<School>, web: Web)
    ensures FetchAllSchoolPacks(a + b, web) == Then(FetchAllSchoolPacks(a, web), FetchAllSchoolPacks(b, web))
  {
    ExtractionsAppend(a, b, web);
    ConcatenateAppend(Extractions(a, web), Extractions(b, web));
  }

  /** Folding a single outcome gives that outcome. */
  lemma ConcatenateOne<T, E>(x: Result<seq<T>, E>)
    ensures Concatenate([x]) == x
  {
    assert [x][..0] == [];
    assert Concatenate([x][..0]) == Ok([]);
    match x
    case Err(_) =>
    case Ok(v) => assert [] + v == v;
  }

  /** The batch over a single school is that school's extraction. */
  lemma BatchOfOne(s: School, web: Web)
    ensures FetchAllSchoolPacks([s], web) == FetchSchoolPack(s, web)
  {
    var one := Extractions([s], web);
    assert one == [FetchSchoolPack(s, web)];
    ConcatenateOne(FetchSchoolPack(s, web));
  }

  /** An empty success leaves an outcome unchanged. */
  lemma ThenEmpty<T, E>(x: Result<seq<T>, E>)
    ensures Then(x, Ok([])) == x
  {
    if x.Ok? {
      assert x.value + [] == x.value;
    }
  }

  /** An outcome that succeeds with no rows can be dropped from the fold. */
  lemma ConcatenateSkipsEmpty<T, E>(a: seq<Result<seq<T>, E>>, b: seq<Result<seq<T>, E>>)
    ensures Concatenate(a + [Ok([])] + b) == Concatenate(a + b)
  {
    var x: Result<seq<T>, E> := Ok([]);
    ConcatenateAppend(a + [x], b);
    ConcatenateAppend(a, [x]);
    ConcatenateAppend(a, b);
    ConcatenateOne(x);
    ThenEmpty(Concatenate(a));
  }

  /** A school that yields zero rows adds nothing to the batch. */
  lemma BatchSkipsEmptySchool(a: seq<School>, s: School, b: seq<School>, web: Web)
    requires FetchSchoolPack(s, web) == Ok([])
    ensures FetchAllSchoolPacks(a + [s] + b, web) == FetchAllSchoolPacks(a + b, web)
  {
    ExtractionsAppend(a + [s], b, web);
    ExtractionsAppend(a, [s], web);
    ExtractionsAppend(a, b, web);
    assert Extractions([s], web) == [Ok([])];
    ConcatenateSkipsEmpty(Extractions(a, web), Extractions(b, web));
  }
}
