/** The colour domain of the world map. The map page and the landing page
    carry the same code: a first pass sums salaries and counts records per
    ISO country code in two maps, a second pass overwrites each sum with the
    average while tracking the smallest and largest average from the
    sentinels +Infinity and -Infinity, and the diverging colour scale takes
    the midpoint of the two. */
module CountryMap {
  import opened Collections
  import opened Grouping
  import opened Stats
  import opened Records
  import opened BarChart

  /** A JavaScript number, as far as this code meets one: a finite value,
      one of the two infinities, or NaN. */
  datatype Extended = NegInf | Finite(v: real) | PosInf | NaN

  /** `x < e` for a finite `x`. */
  predicate Below(x: real, e: Extended) {
    match e
    case NegInf => false
    case Finite(v) => x < v
    case PosInf => true
    case NaN => false
  }

  /** `x > e` for a finite `x`. */
  predicate Above(x: real, e: Extended) {
    match e
    case NegInf => true
    case Finite(v) => x > v
    case PosInf => false
    case NaN => false
  }

  /** IEEE addition on these values: opposite infinities give NaN. */
  function Add(a: Extended, b: Extended): Extended {
    match (a, b)
    case (NaN, _) => NaN
    case (_, NaN) => NaN
    case (PosInf, NegInf) => NaN
    case (NegInf, PosInf) => NaN
    case (PosInf, _) => PosInf
    case (_, PosInf) => PosInf
    case (NegInf, _) => NegInf
    case (_, NegInf) => NegInf
    case (Finite(x), Finite(y)) => Finite(x + y)
  }

  function Half(a: Extended): Extended {
    if a.Finite? then Finite(a.v / 2.0) else a
  }

  /** `(minSalary + maxSalary) / 2`: between two finite bounds it lies
      between them; on the untouched sentinels it is NaN. */
  function Midpoint(lo: Extended, hi: Extended): (m: Extended)
    ensures lo.Finite? && hi.Finite? && lo.v <= hi.v ==> m.Finite? && lo.v <= m.v <= hi.v
    ensures lo == PosInf && hi == NegInf ==> m == NaN
  {
    Half(Add(lo, hi))
  }

  /** How one more record changes its country's group, and nobody else's. */
  lemma ScanStep(prefix: seq<Record>, d: Record, k: string)
    ensures var before, after := Members(prefix, IsoKey, k), Members(prefix + [d], IsoKey, k);
      && |after| == |before| + (if d.iso == k then 1 else 0)
      && Sum(Salaries(after)) == Sum(Salaries(before)) + (if d.iso == k then d.salary else 0)
  {
    MembersSnoc(prefix, d, IsoKey, k);
    if d.iso == k {
      SalariesSnoc(Members(prefix, IsoKey, k), d);
      SumSnoc(Salaries(Members(prefix, IsoKey, k)), d.salary);
    }
  }

  /** The state of the first pass after `rows`: the codes in the order the
      maps received them, and per code the salary sum and the record count. */
  ghost predicate Tallied(rows: seq<Record>, salaryMap: map<string, real>, countryCount: map<string, int>, order: seq<string>) {
    && order == Keys(rows, IsoKey)
    && salaryMap.Keys == countryCount.Keys
    && (forall k :: k in countryCount <==> Occurs(rows, IsoKey, k))
    && Counted(rows, countryCount)
    && Summed(rows, salaryMap)
  }

  ghost predicate Counted(rows: seq<Record>, countryCount: map<string, int>) {
    forall k :: k in countryCount ==> countryCount[k] == |Members(rows, IsoKey, k)|
  }

  ghost predicate Summed(rows: seq<Record>, salaryMap: map<string, real>) {
    forall k :: k in salaryMap ==> salaryMap[k] == Sum(Salaries(Members(rows, IsoKey, k))) as real
  }

  /** Counting one more record of country `c` keeps every count right. */
  lemma CountStep(rows: seq<Record>, d: Record, countryCount: map<string, int>, countryCount': map<string, int>)
    requires Counted(rows, countryCount)
    requires forall k :: k in countryCount <==> Occurs(rows, IsoKey, k)
    requires countryCount'.Keys == countryCount.Keys + {d.iso}
    requires countryCount'[d.iso] == (if d.iso in countryCount then countryCount[d.iso] else 0) + 1
    requires forall k :: k in countryCount && k != d.iso ==> countryCount'[k] == countryCount[k]
    ensures Counted(rows + [d], countryCount')
  {
    forall k | k in countryCount'
      ensures countryCount'[k] == |Members(rows + [d], IsoKey, k)|
    {
      ScanStep(rows, d, k);
    }
  }

  /** Adding one more salary of country `c` keeps every sum right. */
  lemma SumStep(rows: seq<Record>, d: Record, salaryMap: map<string, real>, salaryMap': map<string, real>)
    requires Summed(rows, salaryMap)
    requires forall k :: k in salaryMap <==> Occurs(rows, IsoKey, k)
    requires salaryMap'.Keys == salaryMap.Keys + {d.iso}
    requires salaryMap'[d.iso] == (if d.iso in salaryMap then salaryMap[d.iso] else 0.0) + d.salary as real
    requires forall k :: k in salaryMap && k != d.iso ==> salaryMap'[k] == salaryMap[k]
    ensures Summed(rows + [d], salaryMap')
  {
    forall k | k in salaryMap'
      ensures salaryMap'[k] == Sum(Salaries(Members(rows + [d], IsoKey, k))) as real
    {
      ScanStep(rows, d, k);
    }
  }

  /** The codes after one more record: its code is appended when new. */
  lemma OrderStep(rows: seq<Record>, d: Record, keys: set<string>, order: seq<string>, order': seq<string>)
    requires order == Keys(rows, IsoKey)
    requires forall k :: k in keys <==> Occurs(rows, IsoKey, k)
    requires order' == if d.iso in keys then order else order + [d.iso]
    ensures order' == Keys(rows + [d], IsoKey)
    ensures forall k :: k in keys + {d.iso} <==> Occurs(rows + [d], IsoKey, k)
  {
    KeysSnoc(rows, d, IsoKey);
    forall k ensures k in keys + {d.iso} <==> Occurs(rows + [d], IsoKey, k) {
      OccursSnoc(rows, d, IsoKey, k);
    }
  }

  /** The first pass: per country code, the salary sum and the record count,
      with the codes in the order the maps first receive them. */
  method SumAndCount(salaryData: seq<Record>)
    returns (salaryMap: map<string, real>, countryCount: map<string, int>, order: seq<string>)
    ensures order == Keys(salaryData, IsoKey)
    ensures salaryMap.Keys == countryCount.Keys
    ensures forall k :: k in salaryMap <==> Occurs(salaryData, IsoKey, k)
    ensures forall k :: k in countryCount ==>
      countryCount[k] == |Members(salaryData, IsoKey, k)| && countryCount[k] >= 1
    ensures forall k :: k in salaryMap ==>
      salaryMap[k] == Sum(Salaries(Members(salaryData, IsoKey, k))) as real
  {
    salaryMap, countryCount, order := map[], map[], [];
    var i := 0;
    while i < |salaryData|
      invariant 0 <= i <= |salaryData|
      invariant Tallied(salaryData[..i], salaryMap, countryCount, order)
    {
      assert salaryData[..i + 1] == salaryData[..i] + [salaryData[i]];
      salaryMap, countryCount, order := TallyRecord(salaryData[i], salaryMap, countryCount, order, salaryData[..i]);
      i := i + 1;
    }
    assert salaryData[..i] == salaryData;
    forall k | k in countryCount ensures countryCount[k] >= 1 {
      assert |Members(salaryData, IsoKey, k)| > 0;
    }
  }

  /** One iteration of the first pass: a country not yet in the maps starts
      at 0 and is appended to their order, then the record's salary is added
      to its sum and its count goes up by one. */
  method TallyRecord(d: Record, salaryMap: map<string, real>, countryCount: map<string, int>, order: seq<string>,
                     ghost rows: seq<Record>)
    returns (salaryMap': map<string, real>, countryCount': map<string, int>, order': seq<string>)
    requires Tallied(rows, salaryMap, countryCount, order)
    ensures Tallied(rows + [d], salaryMap', countryCount', order')
  {
    var country := d.iso;
    var salary := d.salary;
    salaryMap', countryCount', order' := salaryMap, countryCount, order;
    if country !in salaryMap' {
      salaryMap' := salaryMap'[country := 0.0];
      countryCount' := countryCount'[country := 0];
      order' := order' + [country];
    }
    salaryMap' := salaryMap'[country := salaryMap'[country] + salary as real];
    countryCount' := countryCount'[country := countryCount'[country] + 1];
    OrderStep(rows, d, countryCount.Keys, order, order');
    CountStep(rows, d, countryCount, countryCount');
    SumStep(rows, d, salaryMap, salaryMap');
  }

  /** The second pass, in the maps' insertion order: every sum becomes
      sum / count, and the running minimum and maximum average start from
      +Infinity and -Infinity. */
  method AverageInPlace(sums: map<string, real>, countryCount: map<string, int>, order: seq<string>)
    returns (salaryMap: map<string, real>, minSalary: Extended, maxSalary: Extended)
    requires sums.Keys == countryCount.Keys
    requires forall k :: k in sums <==> k in order
    requires Distinct(order)
    requires forall k :: k in countryCount ==> countryCount[k] >= 1
    ensures salaryMap.Keys == sums.Keys
    ensures forall k :: k in salaryMap ==> salaryMap[k] == sums[k] / countryCount[k] as real
    ensures |order| == 0 ==> minSalary == PosInf && maxSalary == NegInf
    ensures |order| > 0 ==>
      && minSalary.Finite? && maxSalary.Finite?
      && (forall k :: k in salaryMap ==> minSalary.v <= salaryMap[k] <= maxSalary.v)
      && (exists k :: k in salaryMap && salaryMap[k] == minSalary.v)
      && (exists k :: k in salaryMap && salaryMap[k] == maxSalary.v)
  {
    salaryMap := sums;
    minSalary, maxSalary := PosInf, NegInf;
    var i := 0;
    while i < |order|
      invariant 0 <= i <= |order|
      invariant salaryMap.Keys == sums.Keys
      invariant forall j :: 0 <= j < i ==>
        salaryMap[order[j]] == sums[order[j]] / countryCount[order[j]] as real
      invariant forall j :: i <= j < |order| ==> salaryMap[order[j]] == sums[order[j]]
      invariant i == 0 ==> minSalary == PosInf && maxSalary == NegInf
      invariant i > 0 ==>
        && minSalary.Finite? && maxSalary.Finite?
        && (forall j :: 0 <= j < i ==> minSalary.v <= salaryMap[order[j]] <= maxSalary.v)
        && (exists j :: 0 <= j < i && salaryMap[order[j]] == minSalary.v)
        && (exists j :: 0 <= j < i && salaryMap[order[j]] == maxSalary.v)
    {
      var country := order[i];
      var total := salaryMap[country];
      var avgSalary := total / countryCount[country] as real;
      salaryMap := salaryMap[country := avgSalary];
      if Below(avgSalary, minSalary) {
        minSalary := Finite(avgSalary);
      }
      if Above(avgSalary, maxSalary) {
        maxSalary := Finite(avgSalary);
      }
      i := i + 1;
    }
    forall k | k in salaryMap
      ensures salaryMap[k] == sums[k] / countryCount[k] as real
      ensures |order| > 0 ==> minSalary.v <= salaryMap[k] <= maxSalary.v
    {
      var j :| 0 <= j < |order| && order[j] == k;
    }
    if |order| > 0 {
      var j :| 0 <= j < |order| && salaryMap[order[j]] == minSalary.v;
      var j' :| 0 <= j' < |order| && salaryMap[order[j']] == maxSalary.v;
      assert order[j] in salaryMap && order[j'] in salaryMap;
    }
  }

  /** Both passes and the midpoint: the map holds exactly the countries of the
      records, each with the mean salary of its records (the same value the
      grouped average gives), inside the range of those salaries; without
      records the sentinels stay and the midpoint is NaN, otherwise the
      bounds are attained averages and the midpoint lies between them. */
  method ColourDomain(salaryData: seq<Record>)
    returns (salaryMap: map<string, real>, minSalary: Extended, maxSalary: Extended, midpoint: Extended)
    ensures forall k :: k in salaryMap <==> Occurs(salaryData, IsoKey, k)
    ensures forall k :: k in salaryMap ==> salaryMap[k] == GroupMean(salaryData, IsoKey, k)
    ensures forall k :: k in salaryMap ==>
      var s := Salaries(Members(salaryData, IsoKey, k));
      Least(s) as real <= salaryMap[k] <= Greatest(s) as real
    ensures forall e :: e in GroupAverage(salaryData, IsoKey) ==>
      e.key in salaryMap && salaryMap[e.key] == e.value
    ensures |salaryData| == 0 ==>
      salaryMap == map[] && minSalary == PosInf && maxSalary == NegInf && midpoint == NaN
    ensures |salaryData| > 0 ==>
      && minSalary.Finite? && maxSalary.Finite? && midpoint.Finite?
      && (forall k :: k in salaryMap ==> minSalary.v <= salaryMap[k] <= maxSalary.v)
      && (exists k :: k in salaryMap && salaryMap[k] == minSalary.v)
      && (exists k :: k in salaryMap && salaryMap[k] == maxSalary.v)
      && minSalary.v <= midpoint.v <= maxSalary.v
  {
    var sums, countryCount, order := SumAndCount(salaryData);
    salaryMap, minSalary, maxSalary := AverageInPlace(sums, countryCount, order);
    midpoint := Midpoint(minSalary, maxSalary);
    forall k | k in salaryMap
      ensures salaryMap[k] == GroupMean(salaryData, IsoKey, k)
      ensures var s := Salaries(Members(salaryData, IsoKey, k));
        Least(s) as real <= salaryMap[k] <= Greatest(s) as real
    {
      MeanBounds(Salaries(Members(salaryData, IsoKey, k)));
    }
    forall e | e in GroupAverage(salaryData, IsoKey)
      ensures e.key in salaryMap && salaryMap[e.key] == e.value
    {
      GroupAverageEntry(salaryData, IsoKey, e);
    }
    if |salaryData| == 0 {
      assert salaryMap.Keys == {};
    } else {
      assert Occurs(salaryData, IsoKey, salaryData[0].iso);
      assert salaryData[0].iso in order;
      var k :| k in salaryMap && salaryMap[k] == minSalary.v;
    }
  }
}
