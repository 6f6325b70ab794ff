/** One row of the salary table, with its fields already parsed: salaries
    are whole US dollars and work years are calendar years. */
module Records {

  datatype Record = Record(
    iso: string,
    jobCategory: string,
    companySize: string,
    experienceLevel: string,
    workSetting: string,
    workYear: int,
    salary: int)

  // The columns the charts group by, as key selectors.
  function IsoKey(r: Record): string { r.iso }
  function JobCategoryKey(r: Record): string { r.jobCategory }
  function CompanySizeKey(r: Record): string { r.companySize }
  function ExperienceLevelKey(r: Record): string { r.experienceLevel }
  function WorkSettingKey(r: Record): string { r.workSetting }
  function WorkYearKey(r: Record): int { r.workYear }

  /** The salary column of `rs`, in order. */
  function Salaries(rs: seq<Record>): (ss: seq<int>)
    ensures |ss| == |rs|
    ensures forall i :: 0 <= i < |rs| ==> ss[i] == rs[i].salary
  {
    seq(|rs|, i requires 0 <= i < |rs| => rs[i].salary)
  }

  lemma SalariesSnoc(rs: seq<Record>, r: Record)
    ensures Salaries(rs + [r]) == Salaries(rs) + [r.salary]
  {
  }
}
