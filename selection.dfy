/** The click-driven selection of the country page: the selected job
    categories (clicks on the top-five bar chart) and the selected company
    sizes (clicks on a grouped bar chart), and the records that the redrawn
    charts are then given. */
module Selection {
  import opened Collections
  import opened Records

  /** `s` with `k` added when absent and removed when present. */
  function Toggled(s: set<string>, k: string): (r: set<string>)
    ensures k in r <==> k !in s
    ensures forall x :: x != k ==> (x in r <==> x in s)
  {
    if k in s then s - {k} else s + {k}
  }

  /** Toggling the same key twice restores the set. */
  lemma ToggleTwice(s: set<string>, k: string)
    ensures Toggled(Toggled(s, k), k) == s
  {
    var r := Toggled(Toggled(s, k), k);
    assert forall x :: x in r <==> x in s;
  }

  /** A record is shown when it belongs to the country and each non-empty
      selection contains its value. */
  predicate Admitted(r: Record, country: string, cats: set<string>, sizes: set<string>) {
    && r.iso == country
    && (cats == {} || r.jobCategory in cats)
    && (sizes == {} || r.companySize in sizes)
  }

  /** The records of one country, in input order. */
  function CountryRows(data: seq<Record>, country: string): seq<Record> {
    Filter(data, (r: Record) => r.iso == country)
  }

  /** The admitted records, in input order. */
  function Selected(data: seq<Record>, country: string, cats: set<string>, sizes: set<string>): seq<Record> {
    Filter(data, r => Admitted(r, country, cats, sizes))
  }

  /** The selection keeps exactly the admitted records, each as often as
      the data has it, in the data's order; with nothing selected it is the
      country's records. */
  lemma SelectedSpec(data: seq<Record>, country: string, cats: set<string>, sizes: set<string>)
    ensures var s := Selected(data, country, cats, sizes);
      && (forall r :: r in s <==> r in data && Admitted(r, country, cats, sizes))
      && (forall r :: multiset(s)[r] == if Admitted(r, country, cats, sizes) then multiset(data)[r] else 0)
      && IsSubsequence(s, data)
      && (cats == {} && sizes == {} ==> s == CountryRows(data, country))
  {
    FilterSpec(data, r => Admitted(r, country, cats, sizes));
    if cats == {} && sizes == {} {
      FilterSame(data, r => Admitted(r, country, cats, sizes), (r: Record) => r.iso == country);
    }
  }

  /** The selection is drawn from the country's records: it is a
      subsequence of them. */
  lemma SelectedOfCountry(data: seq<Record>, country: string, cats: set<string>, sizes: set<string>)
    ensures IsSubsequence(Selected(data, country, cats, sizes), CountryRows(data, country))
  {
    var inCountry := (r: Record) => r.iso == country;
    var rest := (r: Record) => (cats == {} || r.jobCategory in cats) && (sizes == {} || r.companySize in sizes);
    FilterFuse(data, inCountry, rest, r => Admitted(r, country, cats, sizes));
    FilterSpec(Filter(data, inCountry), rest);
  }

  class Selection {
    var jobCategories: set<string>
    var companySizes: set<string>

    constructor ()
      ensures jobCategories == {} && companySizes == {}
    {
      jobCategories := {};
      companySizes := {};
    }

    /** A click on a job-category bar. */
    method ToggleJobCategory(k: string)
      modifies this
      ensures jobCategories == Toggled(old(jobCategories), k)
      ensures companySizes == old(companySizes)
    {
      if k in jobCategories {
        jobCategories := jobCategories - {k};
      } else {
        jobCategories := jobCategories + {k};
      }
    }

    /** A click on a bar of either grouped bar chart: the key goes into the
        company-size selection whichever column the chart groups by. */
    method ToggleCompanySize(k: string)
      modifies this
      ensures companySizes == Toggled(old(companySizes), k)
      ensures jobCategories == old(jobCategories)
    {
      if k in companySizes {
        companySizes := companySizes - {k};
      } else {
        companySizes := companySizes + {k};
      }
    }

    /** The records the update redraws with: the country's records, cut down
        by each selection that is not empty. */
    method FilteredData(data: seq<Record>, country: string) returns (countryData: seq<Record>)
      ensures countryData == Selected(data, country, jobCategories, companySizes)
    {
      var cats, sizes := jobCategories, companySizes;
      var inCountry := (r: Record) => r.iso == country;
      var inCats := (r: Record) => r.jobCategory in cats;
      var inSizes := (r: Record) => r.companySize in sizes;
      ghost var stage := (r: Record) => r.iso == country && (cats == {} || r.jobCategory in cats);
      countryData := Filter(data, inCountry);
      if |cats| > 0 {
        FilterFuse(data, inCountry, inCats, stage);
        countryData := Filter(countryData, inCats);
      } else {
        FilterSame(data, inCountry, stage);
      }
      assert countryData == Filter(data, stage);
      ghost var admitted := (r: Record) => Admitted(r, country, cats, sizes);
      if |sizes| > 0 {
        FilterFuse(data, stage, inSizes, admitted);
        countryData := Filter(countryData, inSizes);
      } else {
        FilterSame(data, stage, admitted);
      }
    }

    /** A job-category click: toggle, then redraw with the country's records
        when no job category is left selected (the company-size selection
        is not consulted then), and with the filtered records otherwise. */
    method ClickJobCategory(data: seq<Record>, country: string, k: string) returns (countryData: seq<Record>)
      modifies this
      ensures jobCategories == Toggled(old(jobCategories), k)
      ensures companySizes == old(companySizes)
      ensures countryData == if jobCategories == {} then CountryRows(data, country)
                             else Selected(data, country, jobCategories, companySizes)
    {
      ToggleJobCategory(k);
      if |jobCategories| == 0 {
        countryData := CountryRows(data, country);
      } else {
        countryData := FilteredData(data, country);
      }
    }

    /** A company-size click: the same, with the roles of the two selections swapped. */
    method ClickCompanySize(data: seq<Record>, country: string, k: string) returns (countryData: seq<Record>)
      modifies this
      ensures companySizes == Toggled(old(companySizes), k)
      ensures jobCategories == old(jobCategories)
      ensures countryData == if companySizes == {} then CountryRows(data, country)
                             else Selected(data, country, jobCategories, companySizes)
    {
      ToggleCompanySize(k);
      if |companySizes| == 0 {
        countryData := CountryRows(data, country);
      } else {
        countryData := FilteredData(data, country);
      }
    }
  }
}
