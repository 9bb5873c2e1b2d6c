/**
 * The startups section: a fixed list of example startups split by status
 * into the successful ones and the failed ones, each shown in a grid whose
 * cells are widened by their position. The failed grid, with its heading,
 * only appears when there is a failed startup. The monthly revenue series
 * and the card's rendering are not modelled.
 */
module Startup {
  import JsLib

  datatype Entry = Entry(name: string, description: string, mrr: int, iconName: string, status: string)

  const AIGenius := Entry("AIGenius", "Revolutionizing AI for startups", 57600, "Zap", "success")
  const CloudScale := Entry("CloudScale", "Elastic cloud infrastructure solutions", 89000, "Cloud", "success")
  const CryptoSafe := Entry("CryptoSafe", "Secure cryptocurrency wallet and exchange", 120000, "Lock", "success")
  const EcoTrack := Entry("EcoTrack", "IoT-based environmental monitoring", 75000, "Leaf", "success")
  const HealthHub := Entry("HealthHub", "AI-powered telemedicine platform", 95000, "Heart", "success")
  const EduTech := Entry("EduTech", "Personalized online learning experiences", 40000, "GraduationCap", "failed")
  const SmartHome := Entry("SmartHome", "Integrated smart home automation", 82000, "Home", "success")
  const FintechFlow := Entry("FintechFlow", "Streamlined financial management for SMEs", 70000, "DollarSign", "failed")

  /** The example data, in order. */
  const StartupData: seq<Entry> := [AIGenius, CloudScale, CryptoSafe, EcoTrack, HealthHub, EduTech, SmartHome, FintechFlow]

  predicate IsSuccess(e: Entry) {
    e.status == "success"
  }

  predicate IsFailed(e: Entry) {
    e.status == "failed"
  }

  /** Every entry carries one of the two statuses. */
  predicate KnownStatuses(data: seq<Entry>) {
    forall i :: 0 <= i < |data| ==> IsSuccess(data[i]) || IsFailed(data[i])
  }

  /**
   * `successfulStartups` and `failedStartups`: two order-preserving filters;
   * when every status is one of the two, every entry lands in exactly one of them.
   */
  lemma Partition(data: seq<Entry>)
    ensures JsLib.IsSubsequence(JsLib.Filter(data, IsSuccess), data)
    ensures JsLib.IsSubsequence(JsLib.Filter(data, IsFailed), data)
    ensures forall e :: e in JsLib.Filter(data, IsSuccess) <==> e in data && e.status == "success"
    ensures forall e :: e in JsLib.Filter(data, IsFailed) <==> e in data && e.status == "failed"
    ensures KnownStatuses(data) ==> |JsLib.Filter(data, IsSuccess)| + |JsLib.Filter(data, IsFailed)| == |data|
  {
    JsLib.FilterIsSubsequence(data, IsSuccess);
    JsLib.FilterIsSubsequence(data, IsFailed);
    JsLib.FilterMembers(data, IsSuccess);
    JsLib.FilterMembers(data, IsFailed);
    if KnownStatuses(data) {
      assert forall i :: 0 <= i < |data| ==> IsFailed(data[i]) == !IsSuccess(data[i]);
      JsLib.FilterPartition(data, IsSuccess, IsFailed);
    }
  }

  /** In the example data every startup either succeeded or failed, so the two grids show all eight. */
  lemma DataSplit()
    ensures KnownStatuses(StartupData)
    ensures |JsLib.Filter(StartupData, IsSuccess)| + |JsLib.Filter(StartupData, IsFailed)| == 8
  {
    var d := StartupData;
    forall i | 0 <= i < |d|
      ensures IsFailed(d[i]) == !IsSuccess(d[i])
    {
      assert d[i] in {AIGenius, CloudScale, CryptoSafe, EcoTrack, HealthHub, EduTech, SmartHome, FintechFlow};
    }
    JsLib.FilterPartition(d, IsSuccess, IsFailed);
  }

  /** The successful grid's class for the cell at `index`: positions 1, 2 and 5 are two columns wide. */
  function SuccessSpan(index: nat): (c: string)
    ensures c == "sm:col-span-2" <==> index in {1, 2, 5}
    ensures c == "sm:col-span-1" <==> index !in {1, 2, 5}
  {
    if index == 1 || index == 2 || index == 5 then "sm:col-span-2" else "sm:col-span-1"
  }

  /** The failed grid's class for the cell at `index`: every sixth cell, and the one three after it, are wide. */
  function FailedSpan(index: nat): (c: string)
    ensures c == "md:col-span-2" <==> index % 6 == 0 || index % 6 == 3
    ensures c == "md:col-span-1" <==> !(index % 6 == 0 || index % 6 == 3)
  {
    if index % 6 == 0 || index % 6 == 3 then "md:col-span-2" else "md:col-span-1"
  }

  /** The failed grid's pattern repeats every three cells. */
  lemma FailedSpanPeriodic(index: nat)
    ensures FailedSpan(index + 3) == FailedSpan(index)
    ensures FailedSpan(index) == (if index % 3 == 0 then "md:col-span-2" else "md:col-span-1")
  {
    JsLib.ModShift(index + 3, 3);
    assert (index + 3) % 6 == (if index % 6 < 3 then index % 6 + 3 else index % 6 - 3) by {
      JsLib.ModUnique(index + 3, 6, if index % 6 < 3 then index / 6 else index / 6 + 1,
                      if index % 6 < 3 then index % 6 + 3 else index % 6 - 3);
    }
    assert index % 3 == index % 6 % 3 by {
      JsLib.ModUnique(index, 3, 2 * (index / 6) + (index % 6) / 3, index % 6 % 3);
    }
  }

  /** One grid cell: the startup shown and the cell's class. */
  datatype Cell = Cell(entry: Entry, className: string)

  function Cells(xs: seq<Entry>, span: nat -> string, first: nat): (cs: seq<Cell>)
    ensures |cs| == |xs|
    ensures forall i :: 0 <= i < |xs| ==> cs[i] == Cell(xs[i], span(first + i))
  {
    if xs == [] then [] else [Cell(xs[0], span(first))] + Cells(xs[1..], span, first + 1)
  }

  /** The section: the successful grid, and the failed grid only when it has cells. */
  datatype View = View(successGrid: seq<Cell>, failedGrid: seq<Cell>, showFailed: bool)

  function Render(data: seq<Entry>): (v: View)
    ensures v.successGrid == Cells(JsLib.Filter(data, IsSuccess), SuccessSpan, 0)
    ensures v.failedGrid == Cells(JsLib.Filter(data, IsFailed), FailedSpan, 0)
    ensures v.showFailed <==> exists i :: 0 <= i < |data| && data[i].status == "failed"
  {
    var failed := JsLib.Filter(data, IsFailed);
    JsLib.FilterMembers(data, IsFailed);
    assert failed != [] ==> failed[0] in failed;
    assert (exists i :: 0 <= i < |data| && data[i].status == "failed") ==> failed != [] by {
      if exists i :: 0 <= i < |data| && data[i].status == "failed" {
        var i :| 0 <= i < |data| && data[i].status == "failed";
        assert data[i] in failed;
      }
    }
    View(Cells(JsLib.Filter(data, IsSuccess), SuccessSpan, 0), Cells(failed, FailedSpan, 0), |failed| > 0)
  }
}
