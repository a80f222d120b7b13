/** The pack extractor (`fetch_school_pack`): one school's product page, its
    embedded pack payload, and the flattening of that payload's
    section -> subject -> product nesting into flat rows.

    Decoded JSON objects are typed records whose keys are `Option`s: `None`
    is a key absent from the object. */
module Pack {
  import opened Wrappers
  import opened Seqs

  /** The site origin that a school's path is appended to. */
  const Origin: string := "https://schoolpacks.co.nz"

  /** The school name used when the catalogue node has no `name`. */
  const UnknownSchool: string := "Unknown School"

  /** A catalogue node as far as the extractor reads it: `name` and `path`. */
  datatype School = School(name: Option<string>, path: Option<string>)

  /** One product entry of a subject; `kind` is the JSON key `type`. */
  datatype Product = Product(
    key: Option<string>,
    sku: Option<string>,
    kind: Option<string>,
    description: Option<string>,
    variant: Option<string>,
    deduplicate: Option<bool>,
    locked: Option<bool>,
    quantity: Option<int>)

  /** One subject of a year section, with its products. */
  datatype Subject = Subject(
    title: Option<string>,
    packNotes: Option<string>,
    teacher: Option<string>,
    classroom: Option<string>,
    compulsory: Option<bool>,
    products: Option<seq<Product>>)

  /** One year section of a pack; `title` is the year label. */
  datatype Section = Section(title: Option<string>, subjects: Option<seq<Subject>>)

  /** The decoded pack payload. */
  datatype PackData = PackData(sections: Option<seq<Section>>)

  /** One flat output record: school x section x subject x product. */
  datatype PackRow = PackRow(
    school: string,
    schoolPath: string,
    year: string,
    subject: string,
    packNotes: string,
    teacher: string,
    classroom: string,
    compulsory: bool,
    productName: string,
    sku: string,
    productType: string,
    description: string,
    variant: string,
    deduplicate: bool,
    locked: bool,
    quantity: int)

  /** A payload container of the page: not on the page, on the page but not
      decodable into a pack, or holding a decoded pack. */
  datatype Container = Absent | Undecodable | Holds(data: PackData)

  /** A school's product page, reduced to its two payload containers: the
      primary React component and the fallback description tab. */
  datatype SchoolPage = SchoolPage(primary: Container, fallback: Container)

  /** Why extraction of one school failed. */
  datatype PackError =
    /** Neither container is on the page. */
    MissingPayload
    /** The container that was chosen could not be decoded. */
  | MalformedPayload

  /** A request URL: an origin and the path appended to it. */
  datatype Url = Url(origin: string, path: string) {

    /** The URL as sent: the origin immediately followed by the path. */
    function Text(): (s: string)
      ensures |s| == |origin| + |path|
      ensures s[..|origin|] == origin && s[|origin|..] == path
    {
      origin + path
    }
  }

  /** The pages the site serves, by request URL. */
  type Web = Url -> SchoolPage

  /** `v` is what `get(key, dflt)` returns for a key whose value, if present, is `given`. */
  predicate Got<T(==)>(given: Option<T>, dflt: T, v: T)
  {
    match given
    case None => v == dflt
    case Some(x) => v == x
  }

  /** The school's display name, defaulting to "Unknown School". */
  function SchoolName(school: School): (r: string)
    ensures Got(school.name, UnknownSchool, r)
  {
    school.name.GetOr(UnknownSchool)
  }

  /** The school's path on the site, defaulting to "". */
  function SchoolPath(school: School): (r: string)
    ensures Got(school.path, "", r)
  {
    school.path.GetOr("")
  }

  /** The URL of the school's product page: the site origin followed by the
      school's path. */
  function PageUrl(school: School): (url: Url)
    ensures url.origin == Origin
    ensures Got(school.path, "", url.path)
  {
    Url(Origin, SchoolPath(school))
  }

  /** Two schools are sent to the same page exactly when their paths agree. */
  lemma PageUrlTextInjective(a: School, b: School)
    ensures PageUrl(a).Text() == PageUrl(b).Text() <==> SchoolPath(a) == SchoolPath(b)
  {
    var ta, tb := PageUrl(a).Text(), PageUrl(b).Text();
    if ta == tb {
      assert SchoolPath(a) == ta[|Origin|..] == tb[|Origin|..] == SchoolPath(b);
    }
  }

  /** The subjects of a section; an absent `subjects` key is an empty list. */
  function SubjectsOf(sec: Section): seq<Subject>
  {
    sec.subjects.GetOr([])
  }

  /** The products of a subject; an absent `products` key is an empty list. */
  function ProductsOf(sub: Subject): seq<Product>
  {
    sub.products.GetOr([])
  }

  /** The number of rows a subject yields. */
  function ProductCount(sub: Subject): nat
  {
    |ProductsOf(sub)|
  }

  /** The number of rows a section yields: its subjects' product counts summed. */
  function SectionCount(sec: Section): nat
  {
    SumOf(SubjectsOf(sec), ProductCount)
  }

  /** The number of rows a payload yields: its sections' counts summed. */
  function PackCount(pack: PackData): nat
  {
    SumOf(pack.sections.GetOr([]), SectionCount)
  }

  /** The row for one product, built from its school, section, subject and
      product entries with every absent key defaulted. */
  function MakeRow(school: School, sec: Section, sub: Subject, p: Product): PackRow
  {
    PackRow(
      school := SchoolName(school),
      schoolPath := SchoolPath(school),
      year := sec.title.GetOr(""),
      subject := sub.title.GetOr(""),
      packNotes := sub.packNotes.GetOr(""),
      teacher := sub.teacher.GetOr(""),
      classroom := sub.classroom.GetOr(""),
      compulsory := sub.compulsory.GetOr(false),
      productName := p.key.GetOr(""),
      sku := p.sku.GetOr(""),
      productType := p.kind.GetOr(""),
      description := p.description.GetOr(""),
      variant := p.variant.GetOr(""),
      deduplicate := p.deduplicate.GetOr(false),
      locked := p.locked.GetOr(false),
      quantity := p.quantity.GetOr(0))
  }

  /** Every field of a product's row comes from its key when present, unchanged;
      an absent key gives "" for text, false for flags and 0 for the quantity. */
  lemma MakeRowDefaults(school: School, sec: Section, sub: Subject, p: Product)
    ensures var row := MakeRow(school, sec, sub, p);
      && row.school == SchoolName(school) && row.schoolPath == SchoolPath(school)
      && Got(sec.title, "", row.year)
      && Got(sub.title, "", row.subject)
      && Got(sub.packNotes, "", row.packNotes)
      && Got(sub.teacher, "", row.teacher)
      && Got(sub.classroom, "", row.classroom)
      && Got(sub.compulsory, false, row.compulsory)
      && Got(p.key, "", row.productName)
      && Got(p.sku, "", row.sku)
      && Got(p.kind, "", row.productType)
      && Got(p.description, "", row.description)
      && Got(p.variant, "", row.variant)
      && Got(p.deduplicate, false, row.deduplicate)
      && Got(p.locked, false, row.locked)
      && Got(p.quantity, 0, row.quantity)
  {
  }

  /** The rows of the products `ps` of subject `sub`, in product order. */
  function ProductRows(school: School, sec: Section, sub: Subject, ps: seq<Product>): (rows: seq<PackRow>)
    ensures |rows| == |ps|
    decreases |ps|
  {
    if |ps| == 0 then []
    else ProductRows(school, sec, sub, ps[..|ps| - 1]) + [MakeRow(school, sec, sub, ps[|ps| - 1])]
  }

  /** Row k of a subject's rows is built from product k. */
  lemma {:induction false} ProductRowsAt(school: School, sec: Section, sub: Subject, ps: seq<Product>, k: nat)
    requires k < |ps|
    ensures ProductRows(school, sec, sub, ps)[k] == MakeRow(school, sec, sub, ps[k])
    decreases |ps|
  {
    var pre := ps[..|ps| - 1];
    if k < |pre| {
      ProductRowsAt(school, sec, sub, pre, k);
      AppendIndexLeft(ProductRows(school, sec, sub, pre), [MakeRow(school, sec, sub, ps[|ps| - 1])], k);
    }
  }

  /** The rows of the subjects `subs` of section `sec`, subject by subject. */
  function SubjectRows(school: School, sec: Section, subs: seq<Subject>): (rows: seq<PackRow>)
    ensures |rows| == SumOf(subs, ProductCount)
    decreases |subs|
  {
    if |subs| == 0 then []
    else
      var last := subs[|subs| - 1];
      SubjectRows(school, sec, subs[..|subs| - 1]) + ProductRows(school, sec, last, ProductsOf(last))
  }

  /** The rows of the sections `secs`, section by section. */
  function SectionRows(school: School, secs: seq<Section>): (rows: seq<PackRow>)
    ensures |rows| == SumOf(secs, SectionCount)
    decreases |secs|
  {
    if |secs| == 0 then []
    else
      var last := secs[|secs| - 1];
      SectionRows(school, secs[..|secs| - 1]) + SubjectRows(school, last, SubjectsOf(last))
  }

  /** Every row carries the given school's name and path. */
  predicate FromSchool(rows: seq<PackRow>, school: School)
  {
    forall k | 0 <= k < |rows| :: rows[k].school == SchoolName(school) && rows[k].schoolPath == SchoolPath(school)
  }

  /** Every row of a run of subjects carries the school's name and path. */
  lemma {:induction false} SubjectRowsCarrySchool(school: School, sec: Section, subs: seq<Subject>)
    ensures FromSchool(SubjectRows(school, sec, subs), school)
    decreases |subs|
  {
    if |subs| > 0 {
      var pre, last := subs[..|subs| - 1], subs[|subs| - 1];
      assert subs == pre + [last];
      SubjectRowsSnoc(school, sec, pre, last);
      SubjectRowsCarrySchool(school, sec, pre);
      var head: seq<PackRow>, tail: seq<PackRow> := SubjectRows(school, sec, pre), ProductRows(school, sec, last, ProductsOf(last));
      forall k | 0 <= k < |tail|
        ensures tail[k].school == SchoolName(school) && tail[k].schoolPath == SchoolPath(school)
      {
        ProductRowsAt(school, sec, last, ProductsOf(last), k);
      }
      forall k | 0 <= k < |head + tail|
        ensures (head + tail)[k].school == SchoolName(school) && (head + tail)[k].schoolPath == SchoolPath(school)
      {
        if k < |head| {
          AppendIndexLeft(head, tail, k);
        } else {
          AppendIndexRight(head, tail, k - |head|);
        }
      }
    }
  }

  /** Every row of a run of sections carries the school's name and path. */
  lemma {:induction false} SectionRowsCarrySchool(school: School, secs: seq<Section>)
    ensures FromSchool(SectionRows(school, secs), school)
    decreases |secs|
  {
    if |secs| > 0 {
      var pre, last := secs[..|secs| - 1], secs[|secs| - 1];
      assert secs == pre + [last];
      SectionRowsSnoc(school, pre, last);
      SectionRowsCarrySchool(school, pre);
      SubjectRowsCarrySchool(school, last, SubjectsOf(last));
      var head: seq<PackRow>, tail: seq<PackRow> := SectionRows(school, pre), SubjectRows(school, last, SubjectsOf(last));
      forall k | 0 <= k < |head + tail|
        ensures (head + tail)[k].school == SchoolName(school) && (head + tail)[k].schoolPath == SchoolPath(school)
      {
        if k < |head| {
          AppendIndexLeft(head, tail, k);
        } else {
          AppendIndexRight(head, tail, k - |head|);
        }
      }
    }
  }

  /** All rows of a school's pack payload; an absent `sections` key yields none. */
  function Flatten(school: School, pack: PackData): (rows: seq<PackRow>)
    ensures |rows| == PackCount(pack)
    ensures pack.sections.None? ==> rows == []
    ensures FromSchool(rows, school)
  {
    SectionRowsCarrySchool(school, pack.sections.GetOr([]));
    SectionRows(school, pack.sections.GetOr([]))
  }

  /** The position of the row for product k of subject j of section i. */
  function RowIndex(secs: seq<Section>, i: nat, j: nat, k: nat): nat
    requires i < |secs| && j <= |SubjectsOf(secs[i])|
  {
    SumOf(secs[..i], SectionCount) + SumOf(SubjectsOf(secs[i])[..j], ProductCount) + k
  }

  /** One more subject leaves the rows of the earlier subjects in place. */
  lemma SubjectRowsKeepPrefix(school: School, sec: Section, pre: seq<Subject>, last: Subject, index: nat)
    requires index < |SubjectRows(school, sec, pre)|
    ensures index < |SubjectRows(school, sec, pre + [last])|
    ensures SubjectRows(school, sec, pre + [last])[index] == SubjectRows(school, sec, pre)[index]
  {
    SubjectRowsSnoc(school, sec, pre, last);
    AppendIndexLeft(SubjectRows(school, sec, pre), ProductRows(school, sec, last, ProductsOf(last)), index);
  }

  /** The rows of one more subject follow the rows of the earlier subjects. */
  lemma SubjectRowsAtLast(school: School, sec: Section, pre: seq<Subject>, last: Subject, k: nat)
    requires k < |ProductsOf(last)|
    ensures SumOf(pre, ProductCount) + k < |SubjectRows(school, sec, pre + [last])|
    ensures SubjectRows(school, sec, pre + [last])[SumOf(pre, ProductCount) + k]
         == MakeRow(school, sec, last, ProductsOf(last)[k])
  {
    SubjectRowsSnoc(school, sec, pre, last);
    ProductRowsAt(school, sec, last, ProductsOf(last), k);
    AppendIndexRight(SubjectRows(school, sec, pre), ProductRows(school, sec, last, ProductsOf(last)), k);
  }

  /** Within one section, product k of subject j sits after all products of earlier subjects. */
  lemma {:induction false} SubjectRowsAt(school: School, sec: Section, subs: seq<Subject>, j: nat, k: nat)
    requires j < |subs| && k < |ProductsOf(subs[j])|
    ensures SumOf(subs[..j], ProductCount) + k < |SubjectRows(school, sec, subs)|
    ensures SubjectRows(school, sec, subs)[SumOf(subs[..j], ProductCount) + k]
         == MakeRow(school, sec, subs[j], ProductsOf(subs[j])[k])
    decreases |subs|
  {
    var n := |subs|;
    var pre, last := subs[..n - 1], subs[n - 1];
    assert subs == pre + [last];
    if j == n - 1 {
      SubjectRowsAtLast(school, sec, pre, last, k);
    } else {
      assert pre[..j] == subs[..j];
      SubjectRowsAt(school, sec, pre, j, k);
      SubjectRowsKeepPrefix(school, sec, pre, last, SumOf(pre[..j], ProductCount) + k);
    }
  }

  /** One more section leaves the rows of the earlier sections in place. */
  lemma SectionRowsKeepPrefix(school: School, pre: seq<Section>, last: Section, index: nat)
    requires index < |SectionRows(school, pre)|
    ensures index < |SectionRows(school, pre + [last])|
    ensures SectionRows(school, pre + [last])[index] == SectionRows(school, pre)[index]
  {
    SectionRowsSnoc(school, pre, last);
    AppendIndexLeft(SectionRows(school, pre), SubjectRows(school, last, SubjectsOf(last)), index);
  }

  /** The rows of one more section follow the rows of the earlier sections. */
  lemma SectionRowsAtLast(school: School, pre: seq<Section>, last: Section, inner: nat)
    requires inner < |SubjectRows(school, last, SubjectsOf(last))|
    ensures SumOf(pre, SectionCount) + inner < |SectionRows(school, pre + [last])|
    ensures SectionRows(school, pre + [last])[SumOf(pre, SectionCount) + inner]
         == SubjectRows(school, last, SubjectsOf(last))[inner]
  {
    SectionRowsSnoc(school, pre, last);
    AppendIndexRight(SectionRows(school, pre), SubjectRows(school, last, SubjectsOf(last)), inner);
  }

  /** Product k of subject j of section i sits at RowIndex(secs, i, j, k). */
  lemma {:induction false} SectionRowsAt(school: School, secs: seq<Section>, i: nat, j: nat, k: nat)
    requires i < |secs| && j < |SubjectsOf(secs[i])| && k < |ProductsOf(SubjectsOf(secs[i])[j])|
    ensures RowIndex(secs, i, j, k) < |SectionRows(school, secs)|
    ensures SectionRows(school, secs)[RowIndex(secs, i, j, k)]
         == MakeRow(school, secs[i], SubjectsOf(secs[i])[j], ProductsOf(SubjectsOf(secs[i])[j])[k])
    decreases |secs|
  {
    var n := |secs|;
    var pre, last := secs[..n - 1], secs[n - 1];
    assert secs == pre + [last];
    if i == n - 1 {
      var subs := SubjectsOf(last);
      SubjectRowsAt(school, last, subs, j, k);
      SectionRowsAtLast(school, pre, last, SumOf(subs[..j], ProductCount) + k);
    } else {
      assert pre[..i] == secs[..i];
      SectionRowsAt(school, pre, i, j, k);
      SectionRowsKeepPrefix(school, pre, last, RowIndex(pre, i, j, k));
    }
  }

  /** Every (section, subject, product) triple of the payload has its row at
      RowIndex, built from exactly those three entries. Together with the row
      count this places every row of the output. */
  lemma FlattenRowAt(school: School, pack: PackData, i: nat, j: nat, k: nat)
    requires pack.sections.Some?
    requires i < |pack.sections.value|
    requires j < |SubjectsOf(pack.sections.value[i])|
    requires k < |ProductsOf(SubjectsOf(pack.sections.value[i])[j])|
    ensures RowIndex(pack.sections.value, i, j, k) < |Flatten(school, pack)|
    ensures Flatten(school, pack)[RowIndex(pack.sections.value, i, j, k)]
         == MakeRow(school, pack.sections.value[i], SubjectsOf(pack.sections.value[i])[j],
                    ProductsOf(SubjectsOf(pack.sections.value[i])[j])[k])
  {
    SectionRowsAt(school, pack.sections.value, i, j, k);
  }

  /** Rows come out in lexicographic (section, subject, product) order. */
  lemma RowIndexOrdered(secs: seq<Section>, i: nat, j: nat, k: nat, i': nat, j': nat, k': nat)
    requires i < |secs| && j < |SubjectsOf(secs[i])| && k < |ProductsOf(SubjectsOf(secs[i])[j])|
    requires i' < |secs| && j' < |SubjectsOf(secs[i'])| && k' < |ProductsOf(SubjectsOf(secs[i'])[j'])|
    requires i < i' || (i == i' && j < j') || (i == i' && j == j' && k < k')
    ensures RowIndex(secs, i, j, k) < RowIndex(secs, i', j', k')
  {
    var subs := SubjectsOf(secs[i]);
    SumOfStep(subs, j, ProductCount);
    if i == i' {
      if j < j' {
        SumOfMonotone(subs, j + 1, j', ProductCount);
      }
    } else {
      SumOfMonotone(subs, j + 1, |subs|, ProductCount);
      assert subs[..|subs|] == subs;
      SumOfStep(secs, i, SectionCount);
      SumOfMonotone(secs, i + 1, i', SectionCount);
    }
  }

  /** One more subject appends its product rows. */
  lemma SubjectRowsSnoc(school: School, sec: Section, subs: seq<Subject>, sub: Subject)
    ensures SubjectRows(school, sec, subs + [sub])
         == SubjectRows(school, sec, subs) + ProductRows(school, sec, sub, ProductsOf(sub))
  {
    assert (subs + [sub])[..|subs|] == subs;
  }

  /** One more section appends its subject rows. */
  lemma SectionRowsSnoc(school: School, secs: seq<Section>, sec: Section)
    ensures SectionRows(school, secs + [sec])
         == SectionRows(school, secs) + SubjectRows(school, sec, SubjectsOf(sec))
  {
    assert (secs + [sec])[..|secs|] == secs;
  }

  /** Rows of consecutive runs of subjects concatenate. */
  lemma {:induction false} SubjectRowsAppend(school: School, sec: Section, a: seq<Subject>, b: seq<Subject>)
    ensures SubjectRows(school, sec, a + b) == SubjectRows(school, sec, a) + SubjectRows(school, sec, b)
    decreases |b|
  {
    if |b| == 0 {
      assert a + b == a;
    } else {
      var b', last := b[..|b| - 1], b[|b| - 1];
      assert a + b == (a + b') + [last];
      assert b == b' + [last];
      SubjectRowsSnoc(school, sec, a + b', last);
      SubjectRowsSnoc(school, sec, b', last);
      SubjectRowsAppend(school, sec, a, b');
      AppendAssociative(SubjectRows(school, sec, a), SubjectRows(school, sec, b'),
                        ProductRows(school, sec, last, ProductsOf(last)));
    }
  }

  /** Rows of consecutive runs of sections concatenate. */
  lemma {:induction false} SectionRowsAppend(school: School, a: seq<Section>, b: seq<Section>)
    ensures SectionRows(school, a + b) == SectionRows(school, a) + SectionRows(school, b)
    decreases |b|
  {
    if |b| == 0 {
      assert a + b == a;
    } else {
      var b', last := b[..|b| - 1], b[|b| - 1];
      assert a + b == (a + b') + [last];
      assert b == b' + [last];
      SectionRowsSnoc(school, a + b', last);
      SectionRowsSnoc(school, b', last);
      SectionRowsAppend(school, a, b');
      AppendAssociative(SectionRows(school, a), SectionRows(school, b'),
                        SubjectRows(school, last, SubjectsOf(last)));
    }
  }

  /** A lone subject without products yields no rows. */
  lemma EmptySubjectHasNoRows(school: School, sec: Section, sub: Subject)
    requires sub.products.None?
    ensures SubjectRows(school, sec, [sub]) == []
  {
    assert [sub][..0] == [];
    assert ProductsOf(sub) == [];
  }

  /** A lone section without subjects yields no rows. */
  lemma EmptySectionHasNoRows(school: School, sec: Section)
    requires sec.subjects.None?
    ensures SectionRows(school, [sec]) == []
  {
    assert [sec][..0] == [];
    assert SubjectsOf(sec) == [];
  }

  /** A subject without a `products` key contributes no rows: dropping it
      leaves the section's rows unchanged. */
  lemma SubjectWithoutProductsAddsNothing(school: School, sec: Section, subs: seq<Subject>, j: nat)
    requires j < |subs| && subs[j].products.None?
    ensures SubjectRows(school, sec, subs) == SubjectRows(school, sec, subs[..j] + subs[j + 1..])
  {
    assert subs == subs[..j] + [subs[j]] + subs[j + 1..];
    SubjectRowsAppend(school, sec, subs[..j] + [subs[j]], subs[j + 1..]);
    SubjectRowsAppend(school, sec, subs[..j], [subs[j]]);
    SubjectRowsAppend(school, sec, subs[..j], subs[j + 1..]);
    EmptySubjectHasNoRows(school, sec, subs[j]);
  }

  /** A section without a `subjects` key contributes no rows: dropping it
      leaves the school's rows unchanged. */
  lemma SectionWithoutSubjectsAddsNothing(school: School, secs: seq<Section>, i: nat)
    requires i < |secs| && secs[i].subjects.None?
    ensures SectionRows(school, secs) == SectionRows(school, secs[..i] + secs[i + 1..])
  {
    assert secs == secs[..i] + [secs[i]] + secs[i + 1..];
    SectionRowsAppend(school, secs[..i] + [secs[i]], secs[i + 1..]);
    SectionRowsAppend(school, secs[..i], [secs[i]]);
    SectionRowsAppend(school, secs[..i], secs[i + 1..]);
    EmptySectionHasNoRows(school, secs[i]);
  }

  /** The payload of a page: the primary container when it is on the page
      (with no fallback if it does not decode), otherwise the fallback one. */
  function SelectPayload(page: SchoolPage): (r: Result<PackData, PackError>)
    ensures page.primary.Holds? ==> r == Ok(page.primary.data)
    ensures page.primary.Undecodable? ==> r == Err(MalformedPayload)
    ensures page.primary.Absent? && page.fallback.Holds? ==> r == Ok(page.fallback.data)
    ensures page.primary.Absent? && page.fallback.Undecodable? ==> r == Err(MalformedPayload)
    ensures page.primary.Absent? && page.fallback.Absent? ==> r == Err(MissingPayload)
  {
    match page.primary
    case Holds(d) => Ok(d)
    case Undecodable => Err(MalformedPayload)
    case Absent =>
      match page.fallback
      case Holds(d) => Ok(d)
      case Undecodable => Err(MalformedPayload)
      case Absent => Err(MissingPayload)
  }

  /** Models `fetch_school_pack`: fetch the school's page, choose its payload, flatten it. */
  function FetchSchoolPack(school: School, web: Web): (r: Result<seq<PackRow>, PackError>)
    ensures r.Ok? <==> SelectPayload(web(PageUrl(school))).Ok?
    ensures r.Err? ==> r.error == SelectPayload(web(PageUrl(school))).error
    ensures r.Ok? ==> |r.value| == PackCount(SelectPayload(web(PageUrl(school))).value)
    ensures r.Ok? ==> FromSchool(r.value, school)
  {
    match SelectPayload(web(PageUrl(school)))
    case Ok(pack) => Ok(Flatten(school, pack))
    case Err(e) => Err(e)
  }

  /** The same pack yields the same rows whether the page carries it in the
      primary container or only in the fallback one. */
  lemma FallbackMatchesPrimary(school: School, pack: PackData, primaryWeb: Web, fallbackWeb: Web)
    requires primaryWeb(PageUrl(school)).primary == Holds(pack)
    requires fallbackWeb(PageUrl(school)) == SchoolPage(Absent, Holds(pack))
    ensures FetchSchoolPack(school, primaryWeb) == FetchSchoolPack(school, fallbackWeb) == Ok(Flatten(school, pack))
  {
  }
}
