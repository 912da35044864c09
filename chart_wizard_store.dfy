/**
  The chart wizard's store: the campaign and time-range filters, the radio
  indices `applyChartDef` restores from a saved chart, the selected
  indicators that `onAddIndicator` and `onRemoveIndicator` edit in place,
  the empty-selection guard of `previewChart`, the indicator ids
  `onSaveChart` writes back, and the location list built by sorting on
  title, reversing and handing the result to `treeify`.

  `chartDefinitions` is a parameter (its `groups`, `formats`, `charts` and
  `times` lists); the API calls, the chart-data processing and `trigger` are
  not part of this model.
*/
module ChartWizardStore {
  import opened Js
  import Sorting
  import Treeify

  /** A campaign with its office already looked up: `campaign.office.name`. */
  datatype Campaign = Campaign(id: Value, officeName: string)

  /** A location as the locations API lists it. */
  datatype Location = Location(id: Value, name: string, parentLocationId: Value)

  /** One of `chartDefinitions.times`: the radio `value` and the saved `json`. */
  datatype TimeRange = TimeRange(value: Value, json: Value)

  /** One of `chartDefinitions.charts`: a chart type's `name` and its `timeRadios`. */
  datatype ChartType = ChartType(name: Value, timeRadios: seq<Value>)

  /** An indicator of the indicator tree. */
  datatype Indicator = Indicator(id: Value, title: Value)

  /** The fields of the chart definition the wizard reads and writes; `indicators` is `None` while unset. */
  datatype ChartDef = ChartDef(indicators: Option<seq<Value>>, groupBy: Value, timeRange: Value, yFormat: Value)

  /** `array.filter(keep)`: the elements that pass, in their order. */
  function Filter<T>(s: seq<T>, keep: T -> bool): seq<T> {
    if |s| == 0 then []
    else Filter(s[..|s| - 1], keep) + (if keep(s[|s| - 1]) then [s[|s| - 1]] else [])
  }

  /** An element is kept exactly when it is in the input and passes. */
  lemma {:induction false} FilterMembers<T>(s: seq<T>, keep: T -> bool, x: T)
    ensures x in Filter(s, keep) <==> x in s && keep(x)
  {
    if |s| > 0 {
      var q := s[..|s| - 1];
      FilterMembers(q, keep, x);
      assert s == q + [s[|s| - 1]];
    }
  }

  /** The members of a filtered sequence, for every element at once. */
  lemma FilterMembersAll<T>(s: seq<T>, keep: T -> bool)
    ensures forall x :: x in Filter(s, keep) <==> x in s && keep(x)
  {
    forall x
      ensures x in Filter(s, keep) <==> x in s && keep(x)
    {
      FilterMembers(s, keep, x);
    }
  }

  /** Filtering a concatenation filters each part and keeps them in order. */
  lemma {:induction false} FilterAppend<T>(a: seq<T>, b: seq<T>, keep: T -> bool)
    ensures Filter(a + b, keep) == Filter(a, keep) + Filter(b, keep)
  {
    if |b| > 0 {
      var q := b[..|b| - 1];
      FilterAppend(a, q, keep);
      assert (a + b)[..|a + b| - 1] == a + q;
    } else {
      assert a + b == a;
    }
  }

  /** What passes and what fails make up the input, nothing lost or duplicated. */
  lemma {:induction false} FilterPartition<T>(s: seq<T>, keep: T -> bool, drop: T -> bool)
    requires forall x :: drop(x) == !keep(x)
    ensures multiset(Filter(s, keep)) + multiset(Filter(s, drop)) == multiset(s)
  {
    if |s| > 0 {
      var q := s[..|s| - 1];
      FilterPartition(q, keep, drop);
      assert s == q + [s[|s| - 1]];
    }
  }

  /** Filtering again changes nothing. */
  lemma {:induction false} FilterIdempotent<T>(s: seq<T>, keep: T -> bool)
    ensures Filter(Filter(s, keep), keep) == Filter(s, keep)
  {
    if |s| > 0 {
      var q := s[..|s| - 1];
      FilterIdempotent(q, keep);
      var x := s[|s| - 1];
      FilterAppend(Filter(q, keep), if keep(x) then [x] else [], keep);
      assert Filter([x], keep) == Filter([], keep) + (if keep(x) then [x] else []);
      if !keep(x) {
        assert Filter([], keep) == [];
      }
    }
  }

  /** The test `filterCampaignByLocation` applies to each campaign. */
  function AtLocation(location: Location): Campaign -> bool {
    (c: Campaign) => c.officeName == location.name
  }

  /** `filterCampaignByLocation(campaigns, location)` */
  function FilterCampaignByLocation(campaigns: seq<Campaign>, location: Location): (r: seq<Campaign>)
    ensures forall c :: c in r <==> c in campaigns && c.officeName == location.name
  {
    FilterMembersAll(campaigns, AtLocation(location));
    Filter(campaigns, AtLocation(location))
  }

  /**
    Exactly the campaigns run by an office of the location's name are kept,
    and the filter keeps their order (it distributes over concatenation).
  */
  lemma CampaignsOfLocation(campaigns: seq<Campaign>, location: Location, more: seq<Campaign>)
    ensures forall c :: c in FilterCampaignByLocation(campaigns, location) <==>
      c in campaigns && c.officeName == location.name
    ensures FilterCampaignByLocation(campaigns + more, location) ==
      FilterCampaignByLocation(campaigns, location) + FilterCampaignByLocation(more, location)
  {
    FilterAppend(campaigns, more, AtLocation(location));
  }

  /** `_.find(charts, {name: chartType})`: the first chart type of that name. */
  function FindChart(charts: seq<ChartType>, chartType: Value): (r: Option<ChartType>)
    ensures r.None? <==> forall k :: 0 <= k < |charts| ==> charts[k].name != chartType
    ensures r.Some? ==> exists k :: 0 <= k < |charts| && charts[k] == r.value && charts[k].name == chartType &&
                                  (forall j :: 0 <= j < k ==> charts[j].name != chartType)
  {
    if |charts| == 0 then None
    else if charts[0].name == chartType then Some(charts[0])
    else
      var r := FindChart(charts[1..], chartType);
      assert forall k :: 1 <= k < |charts| ==> charts[k] == charts[1..][k - 1];
      if r.Some? then
        var k :| 0 <= k < |charts[1..]| && charts[1..][k] == r.value && charts[1..][k].name == chartType &&
          forall j :: 0 <= j < k ==> charts[1..][j].name != chartType;
        assert charts[k + 1] == r.value;
        r
      else r
  }

  /** The test `filterTimeRangeByChartType` applies to each time range. */
  function Offered(timeRadios: seq<Value>): TimeRange -> bool {
    (t: TimeRange) => t.value in timeRadios
  }

  /**
    `filterTimeRangeByChartType(timeRanges, chartType)`; `None` when no chart
    type has that name, where reading `timeRadios` of undefined throws.
  */
  function FilterTimeRangeByChartType(timeRanges: seq<TimeRange>, charts: seq<ChartType>, chartType: Value): (r: Option<seq<TimeRange>>)
    ensures r.None? <==> forall k :: 0 <= k < |charts| ==> charts[k].name != chartType
  {
    match FindChart(charts, chartType)
    case None => None
    case Some(chart) => Some(Filter(timeRanges, Offered(chart.timeRadios)))
  }

  /**
    With a chart type of that name, exactly the time ranges whose value is
    one of the first such chart type's radios are kept, in their order.
  */
  lemma TimeRangesOfChart(timeRanges: seq<TimeRange>, more: seq<TimeRange>, charts: seq<ChartType>, chartType: Value, k: nat)
    requires k < |charts| && charts[k].name == chartType
    requires forall j :: 0 <= j < k ==> charts[j].name != chartType
    ensures FilterTimeRangeByChartType(timeRanges, charts, chartType).Some?
    ensures forall t :: t in FilterTimeRangeByChartType(timeRanges, charts, chartType).value <==>
      t in timeRanges && t.value in charts[k].timeRadios
    ensures FilterTimeRangeByChartType(timeRanges + more, charts, chartType).value ==
      FilterTimeRangeByChartType(timeRanges, charts, chartType).value + FilterTimeRangeByChartType(more, charts, chartType).value
  {
    var chart := FindChart(charts, chartType).value;
    var i :| 0 <= i < |charts| && charts[i] == chart && charts[i].name == chartType &&
      forall j :: 0 <= j < i ==> charts[j].name != chartType;
    assert i == k;
    forall t
      ensures t in FilterTimeRangeByChartType(timeRanges, charts, chartType).value <==> t in timeRanges && t.value in charts[k].timeRadios
    {
      FilterMembers(timeRanges, Offered(chart.timeRadios), t);
    }
    FilterAppend(timeRanges, more, Offered(chart.timeRadios));
  }

  /** `_.findIndex(s, {value: v})`: the first position holding v, or -1. */
  function FindIndex(s: seq<Value>, v: Value): (r: int)
    ensures -1 <= r < |s|
    ensures r == -1 <==> forall k :: 0 <= k < |s| ==> s[k] != v
    ensures r >= 0 ==> s[r] == v && forall k :: 0 <= k < r ==> s[k] != v
  {
    if |s| == 0 then -1
    else if s[0] == v then 0
    else
      var r := FindIndex(s[1..], v);
      assert forall k :: 1 <= k < |s| ==> s[k] == s[1..][k - 1];
      if r < 0 then -1 else r + 1
  }

  /** The `json` of each time range. */
  function Jsons(timeRanges: seq<TimeRange>): (r: seq<Value>)
    ensures |r| == |timeRanges|
    ensures forall k :: 0 <= k < |timeRanges| ==> r[k] == timeRanges[k].json
  {
    if |timeRanges| == 0 then [] else Jsons(timeRanges[..|timeRanges| - 1]) + [timeRanges[|timeRanges| - 1].json]
  }

  /** Whether a selected entry is an indicator with this id: `_.remove`'s `{id: id}` test. */
  predicate Selects(entry: Option<Indicator>, id: Value) {
    entry.Some? && entry.value.id == id
  }

  function Keeps(id: Value): Option<Indicator> -> bool {
    (e: Option<Indicator>) => !Selects(e, id)
  }

  function Drops(id: Value): Option<Indicator> -> bool {
    (e: Option<Indicator>) => Selects(e, id)
  }

  /** `_.map(selected, _.property('id'))`: undefined for an undefined entry. */
  function QueryIds(selected: seq<Option<Indicator>>): (r: seq<Value>)
    ensures |r| == |selected|
    ensures forall k :: 0 <= k < |selected| ==> r[k] == (if selected[k].Some? then selected[k].value.id else Undefined)
  {
    if |selected| == 0 then []
    else QueryIds(selected[..|selected| - 1]) + [match selected[|selected| - 1] case Some(i) => i.id case None => Undefined]
  }

  /** `selected.map(item => item.id)`: `None` when an entry is undefined, whose `.id` throws. */
  function SelectedIds(selected: seq<Option<Indicator>>): (r: Option<seq<Value>>)
    ensures r.None? <==> exists k :: 0 <= k < |selected| && selected[k].None?
    ensures r.Some? ==> |r.value| == |selected|
    ensures r.Some? ==> forall k :: 0 <= k < |selected| ==> selected[k].Some? && r.value[k] == selected[k].value.id
  {
    if |selected| == 0 then Some([])
    else
      var q := selected[..|selected| - 1];
      var r := SelectedIds(q);
      assert forall k :: 0 <= k < |q| ==> q[k] == selected[k];
      match selected[|selected| - 1]
      case None => None
      case Some(i) => if r.None? then None else Some(r.value + [i.id])
  }

  /** `_.merge` with a customizer returning the new value: an undefined new value keeps the old one. */
  function MergeField(current: Value, incoming: Value): (r: Value)
    ensures incoming != Undefined ==> r == incoming
    ensures incoming == Undefined ==> r == current
  {
    if incoming == Undefined then current else incoming
  }

  /**
    What `previewChart` comes to: nothing selected (it returns early), a
    throw while reading the group radio, the campaign or the time radio, or
    a query for these indicator ids.
  */
  datatype Preview = NothingSelected | Throws | Query(indicatorIds: seq<Value>)

  /**
    `previewChart` gets past its reads: `groups[groupByValue]`,
    `campaign.start_date` and `times[timeValue]` are all defined.
  */
  predicate CanQuery(groupByValue: int, campaign: Option<Campaign>, timeValue: int, groups: seq<Value>, times: seq<TimeRange>) {
    0 <= groupByValue < |groups| && campaign.Some? && 0 <= timeValue < |times|
  }

  /** The wizard's `data` fields this model covers, and its campaign and indicator indexes. */
  class Store {
    var indicatorIndex: map<Value, Indicator>
    var campaignIndex: map<Value, Campaign>
    var campaign: Option<Campaign>
    var indicatorSelected: seq<Option<Indicator>>
    var timeRangeFilteredList: seq<TimeRange>
    var groupByValue: int
    var timeValue: int
    var yFormatValue: int
    var canDisplayChart: bool
    var chartDef: ChartDef

    /** The store's initial `data`. */
    constructor ()
      ensures indicatorIndex == map[] && indicatorSelected == [] && timeRangeFilteredList == []
      ensures campaignIndex == map[] && campaign.None?
      ensures groupByValue == 0 && timeValue == 0 && yFormatValue == 0
      ensures !canDisplayChart
      ensures chartDef == ChartDef(None, Undefined, Undefined, Undefined)
    {
      indicatorIndex := map[];
      campaignIndex := map[];
      campaign := None;
      indicatorSelected := [];
      timeRangeFilteredList := [];
      groupByValue := 0;
      timeValue := 0;
      yFormatValue := 0;
      canDisplayChart := false;
      chartDef := ChartDef(None, Undefined, Undefined, Undefined);
    }

    /**
      `applyChartDef(chartDef)`: the group and format radios go to the
      positions of the saved values (-1 when absent) and the time radio to
      the position of the saved time range, or 0 when it is absent.
    */
    method ApplyChartDef(def: ChartDef, groups: seq<Value>, formats: seq<Value>)
      modifies this
      ensures groupByValue == FindIndex(groups, def.groupBy)
      ensures yFormatValue == FindIndex(formats, def.yFormat)
      ensures var found := FindIndex(Jsons(timeRangeFilteredList), def.timeRange);
        timeValue == if found < 0 then 0 else found
      ensures 0 <= timeValue && (timeValue == 0 || timeValue < |timeRangeFilteredList|)
      ensures timeValue > 0 ==> timeRangeFilteredList[timeValue].json == def.timeRange
      ensures campaignIndex == old(campaignIndex) && campaign == old(campaign)
      ensures indicatorIndex == old(indicatorIndex) && indicatorSelected == old(indicatorSelected)
      ensures timeRangeFilteredList == old(timeRangeFilteredList) && canDisplayChart == old(canDisplayChart)
      ensures chartDef == old(chartDef)
    {
      groupByValue := FindIndex(groups, def.groupBy);
      var found := FindIndex(Jsons(timeRangeFilteredList), def.timeRange);
      timeValue := if found < 0 then 0 else found;
      yFormatValue := FindIndex(formats, def.yFormat);
    }

    /**
      `previewChart`: with nothing selected it clears `canDisplayChart` and
      returns before building a query.  Otherwise it reads
      `groups[groupByValue].value`, `campaign.start_date` and
      `times[timeValue]`, and throws when one of them is undefined; past
      those reads the query's `indicator__in` is the selected ids in
      selection order.  `canDisplayChart` is only set again once the chart
      data arrives, which is not part of this model.
    */
    method PreviewChart(groups: seq<Value>, times: seq<TimeRange>) returns (preview: Preview)
      modifies this
      ensures campaignIndex == old(campaignIndex) && campaign == old(campaign)
      ensures indicatorIndex == old(indicatorIndex) && indicatorSelected == old(indicatorSelected)
      ensures timeRangeFilteredList == old(timeRangeFilteredList)
      ensures groupByValue == old(groupByValue) && timeValue == old(timeValue) && yFormatValue == old(yFormatValue)
      ensures chartDef == old(chartDef)
      ensures |indicatorSelected| == 0 ==> preview == NothingSelected && !canDisplayChart
      ensures |indicatorSelected| > 0 ==> canDisplayChart == old(canDisplayChart)
      ensures |indicatorSelected| > 0 && !CanQuery(groupByValue, campaign, timeValue, groups, times) ==> preview == Throws
      ensures |indicatorSelected| > 0 && CanQuery(groupByValue, campaign, timeValue, groups, times) ==>
        preview == Query(QueryIds(indicatorSelected))
    {
      if |indicatorSelected| == 0 {
        canDisplayChart := false;
        return NothingSelected;
      }
      if !(0 <= groupByValue < |groups|) || campaign.None? || !(0 <= timeValue < |times|) {
        return Throws;
      }
      preview := Query(QueryIds(indicatorSelected));
    }

    /**
      `onAddCampaign(index)`: the campaign the index maps the key to
      (undefined when it has none), then a preview.
    */
    method OnAddCampaign(index: Value, groups: seq<Value>, times: seq<TimeRange>) returns (preview: Preview)
      modifies this
      ensures campaign == (if index in campaignIndex then Some(campaignIndex[index]) else None)
      ensures campaignIndex == old(campaignIndex)
      ensures indicatorIndex == old(indicatorIndex) && indicatorSelected == old(indicatorSelected)
      ensures timeRangeFilteredList == old(timeRangeFilteredList)
      ensures groupByValue == old(groupByValue) && timeValue == old(timeValue) && yFormatValue == old(yFormatValue)
      ensures chartDef == old(chartDef)
      ensures |indicatorSelected| == 0 ==> preview == NothingSelected && !canDisplayChart
      ensures |indicatorSelected| > 0 ==> canDisplayChart == old(canDisplayChart)
      ensures |indicatorSelected| > 0 && !CanQuery(groupByValue, campaign, timeValue, groups, times) ==> preview == Throws
      ensures |indicatorSelected| > 0 && CanQuery(groupByValue, campaign, timeValue, groups, times) ==>
        preview == Query(QueryIds(indicatorSelected))
    {
      campaign := if index in campaignIndex then Some(campaignIndex[index]) else None;
      preview := PreviewChart(groups, times);
    }

    /**
      `onAddIndicator(index)`: pushes the indicator the index maps the key
      to (undefined when it has none) after the current selection, then
      previews the now non-empty selection.
    */
    method OnAddIndicator(index: Value, groups: seq<Value>, times: seq<TimeRange>) returns (preview: Preview)
      modifies this
      ensures indicatorSelected == old(indicatorSelected) + [if index in indicatorIndex then Some(indicatorIndex[index]) else None]
      ensures |indicatorSelected| == |old(indicatorSelected)| + 1
      ensures forall k :: 0 <= k < |old(indicatorSelected)| ==> indicatorSelected[k] == old(indicatorSelected)[k]
      ensures canDisplayChart == old(canDisplayChart)
      ensures !CanQuery(groupByValue, campaign, timeValue, groups, times) ==> preview == Throws
      ensures CanQuery(groupByValue, campaign, timeValue, groups, times) ==> preview == Query(QueryIds(indicatorSelected))
      ensures campaignIndex == old(campaignIndex) && campaign == old(campaign)
      ensures indicatorIndex == old(indicatorIndex) && timeRangeFilteredList == old(timeRangeFilteredList)
      ensures groupByValue == old(groupByValue) && timeValue == old(timeValue) && yFormatValue == old(yFormatValue)
      ensures chartDef == old(chartDef)
    {
      var entry := if index in indicatorIndex then Some(indicatorIndex[index]) else None;
      indicatorSelected := indicatorSelected + [entry];
      preview := PreviewChart(groups, times);
    }

    /**
      `onRemoveIndicator(id)`: `_.remove` scans the selection once, collects
      the entries that are indicators with this id, and pulls them out of the
      array; the others keep their order.  Then the selection is previewed.
    */
    method OnRemoveIndicator(id: Value, groups: seq<Value>, times: seq<TimeRange>) returns (removed: seq<Option<Indicator>>, preview: Preview)
      modifies this
      ensures indicatorSelected == Filter(old(indicatorSelected), Keeps(id))
      ensures removed == Filter(old(indicatorSelected), Drops(id))
      ensures |indicatorSelected| == 0 ==> preview == NothingSelected && !canDisplayChart
      ensures |indicatorSelected| > 0 ==> canDisplayChart == old(canDisplayChart)
      ensures |indicatorSelected| > 0 && !CanQuery(groupByValue, campaign, timeValue, groups, times) ==> preview == Throws
      ensures |indicatorSelected| > 0 && CanQuery(groupByValue, campaign, timeValue, groups, times) ==>
        preview == Query(QueryIds(indicatorSelected))
      ensures campaignIndex == old(campaignIndex) && campaign == old(campaign)
      ensures indicatorIndex == old(indicatorIndex) && timeRangeFilteredList == old(timeRangeFilteredList)
      ensures groupByValue == old(groupByValue) && timeValue == old(timeValue) && yFormatValue == old(yFormatValue)
      ensures chartDef == old(chartDef)
    {
      var selected := indicatorSelected;
      var kept := [];
      removed := [];
      var i := 0;
      while i < |selected|
        invariant 0 <= i <= |selected|
        invariant kept == Filter(selected[..i], Keeps(id))
        invariant removed == Filter(selected[..i], Drops(id))
      {
        assert selected[..i + 1][..i] == selected[..i];
        if Selects(selected[i], id) {
          removed := removed + [selected[i]];
        } else {
          kept := kept + [selected[i]];
        }
        i := i + 1;
      }
      assert selected[..i] == selected;
      indicatorSelected := kept;
      preview := PreviewChart(groups, times);
    }

    /**
      `onSaveChart(callback)`: the definition handed to the callback, with
      the selected indicators' ids in selection order and the values of the
      chosen radios; `None` when an entry or a radio index is undefined and
      reading its field throws, in which case nothing changes.
    */
    method OnSaveChart(groups: seq<Value>, formats: seq<Value>) returns (saved: Option<ChartDef>)
      modifies this
      ensures campaignIndex == old(campaignIndex) && campaign == old(campaign)
      ensures indicatorIndex == old(indicatorIndex) && indicatorSelected == old(indicatorSelected)
      ensures timeRangeFilteredList == old(timeRangeFilteredList) && canDisplayChart == old(canDisplayChart)
      ensures groupByValue == old(groupByValue) && timeValue == old(timeValue) && yFormatValue == old(yFormatValue)
      ensures saved.None? <==>
        SelectedIds(old(indicatorSelected)).None? ||
        !(0 <= old(groupByValue) < |groups|) ||
        !(0 <= old(timeValue) < |old(timeRangeFilteredList)|) ||
        !(0 <= old(yFormatValue) < |formats|)
      ensures saved.None? ==> chartDef == old(chartDef)
      ensures saved.Some? ==> saved.value == chartDef && chartDef.indicators == SelectedIds(old(indicatorSelected))
      ensures saved.Some? ==> chartDef.groupBy == MergeField(old(chartDef.groupBy), groups[groupByValue])
      ensures saved.Some? ==> chartDef.timeRange == MergeField(old(chartDef.timeRange), timeRangeFilteredList[timeValue].json)
      ensures saved.Some? ==> chartDef.yFormat == MergeField(old(chartDef.yFormat), formats[yFormatValue])
    {
      var ids := SelectedIds(indicatorSelected);
      if ids.None? || !(0 <= groupByValue < |groups|) || !(0 <= timeValue < |timeRangeFilteredList|) || !(0 <= yFormatValue < |formats|) {
        return None;
      }
      chartDef := ChartDef(
        ids,
        MergeField(chartDef.groupBy, groups[groupByValue]),
        MergeField(chartDef.timeRange, timeRangeFilteredList[timeValue].json),
        MergeField(chartDef.yFormat, formats[yFormatValue]));
      saved := Some(chartDef);
    }
  }

  /**
    What `onRemoveIndicator` leaves and returns: no remaining entry has the
    id, every other entry stays, the kept and the removed entries together
    are the old selection, and removing the id again changes nothing.
  */
  lemma RemovalSpec(selected: seq<Option<Indicator>>, id: Value)
    ensures forall e :: e in Filter(selected, Keeps(id)) <==> e in selected && !Selects(e, id)
    ensures forall e :: e in Filter(selected, Drops(id)) ==> Selects(e, id)
    ensures multiset(Filter(selected, Keeps(id))) + multiset(Filter(selected, Drops(id))) == multiset(selected)
    ensures Filter(Filter(selected, Keeps(id)), Keeps(id)) == Filter(selected, Keeps(id))
  {
    forall e
      ensures e in Filter(selected, Keeps(id)) <==> e in selected && !Selects(e, id)
      ensures e in Filter(selected, Drops(id)) ==> Selects(e, id)
    {
      FilterMembers(selected, Keeps(id), e);
      FilterMembers(selected, Drops(id), e);
    }
    FilterPartition(selected, Keeps(id), Drops(id));
    FilterIdempotent(selected, Keeps(id));
  }

  /** A selection the wizard can save lists the ids of its entries, in selection order. */
  lemma SavedIdsFollowSelection(selected: seq<Option<Indicator>>)
    requires forall k :: 0 <= k < |selected| ==> selected[k].Some?
    ensures SelectedIds(selected).Some?
    ensures SelectedIds(selected).value == QueryIds(selected)
  {
  }

  /** Adding an indicator and removing its id leaves the selection as it was when no entry had that id. */
  lemma AddThenRemove(selected: seq<Option<Indicator>>, indicator: Indicator)
    requires forall k :: 0 <= k < |selected| ==> !Selects(selected[k], indicator.id)
    ensures Filter(selected + [Some(indicator)], Keeps(indicator.id)) == selected
  {
    FilterAppend(selected, [Some(indicator)], Keeps(indicator.id));
    FilterAllKept(selected, Keeps(indicator.id));
    assert Filter([Some(indicator)], Keeps(indicator.id)) == Filter([], Keeps(indicator.id)) + [];
  }

  lemma {:induction false} FilterAllKept<T>(s: seq<T>, keep: T -> bool)
    requires forall k :: 0 <= k < |s| ==> keep(s[k])
    ensures Filter(s, keep) == s
  {
    if |s| > 0 {
      FilterAllKept(s[..|s| - 1], keep);
    }
  }

  /** The location list's record for a location: `{title, value, parent}`. */
  function ToRecord(l: Location): Treeify.Record {
    Treeify.Record(map["title" := Str(l.name), "value" := l.id, Treeify.ParentField := l.parentLocationId], None, Treeify.Unset)
  }

  function Records(locations: seq<Location>): (r: seq<Treeify.Record>)
    ensures |r| == |locations|
    ensures forall k :: 0 <= k < |locations| ==> r[k] == ToRecord(locations[k])
  {
    if |locations| == 0 then [] else Records(locations[..|locations| - 1]) + [ToRecord(locations[|locations| - 1])]
  }

  /** A record's `title` string, the sort key; "" when it has none. */
  function TitleOf(r: Treeify.Record): string {
    match Treeify.Field(r, "title")
    case Str(t) => t
    case _ => ""
  }

  /** `_.reverse` */
  function Reverse<T>(s: seq<T>): (r: seq<T>)
    ensures |r| == |s|
    ensures forall k :: 0 <= k < |s| ==> r[k] == s[|s| - 1 - k]
  {
    if |s| == 0 then [] else [s[|s| - 1]] + Reverse(s[..|s| - 1])
  }

  /** Reversing rearranges the elements: nothing is lost, added or duplicated. */
  lemma {:induction false} ReversePermutes<T>(s: seq<T>)
    ensures multiset(Reverse(s)) == multiset(s)
  {
    if |s| > 0 {
      var q := s[..|s| - 1];
      ReversePermutes(q);
      assert s == q + [s[|s| - 1]];
    }
  }

  /**
    The records sorted by title, then reversed: what `treeify` is given.
    It holds each location's record once.
  */
  function Arranged(locations: seq<Location>): (r: seq<Treeify.Record>)
    ensures |r| == |locations|
    ensures multiset(r) == multiset(Records(locations))
  {
    var sorted := Sorting.SortBy(Records(locations), TitleOf, StrLt);
    Sorting.SortByPermutes(Records(locations), TitleOf, StrLt);
    ReversePermutes(sorted);
    assert |sorted| == |multiset(sorted)| == |Records(locations)|;
    Reverse(sorted)
  }

  /**
    The location list up to `treeify`: map each location to its record,
    sort by title, reverse, and treeify by `value`.  Returns the records with
    their links and the positions of the roots.
  */
  method LocationList(locations: seq<Location>) returns (list: array<Treeify.Record>, roots: seq<nat>)
    ensures fresh(list)
    ensures list.Length == |locations|
    ensures roots == Treeify.Roots(Arranged(locations), "value")
    ensures forall j :: 0 <= j < list.Length ==> list[j] == Treeify.Linked(Arranged(locations), "value", j)
  {
    var sorted := Sorting.SortBy(Records(locations), TitleOf, StrLt);
    var arranged := Reverse(sorted);
    assert arranged == Arranged(locations);
    list := new Treeify.Record[|arranged|](k requires 0 <= k < |arranged| => arranged[k]);
    assert list[..] == arranged;
    roots := Treeify.Treeify(list, "value");
  }

  /** `<` on strings orders them strictly and totally. */
  lemma StrLtOrder()
    ensures Sorting.StrictTotalOrder(StrLt)
  {
    forall a: string
      ensures !StrLt(a, a)
    {
      StrLtIrreflexive(a);
    }
    forall a: string, b: string, c: string | StrLt(a, b) && StrLt(b, c)
      ensures StrLt(a, c)
    {
      StrLtTransitive(a, b, c);
    }
    forall a: string, b: string | a != b
      ensures StrLt(a, b) || StrLt(b, a)
    {
      StrLtTotal(a, b);
    }
  }

  /** The elements at positions xs of s come in ascending key order. */
  predicate AscendingAt<T, K>(s: seq<T>, xs: seq<nat>, key: T -> K, lt: (K, K) -> bool) {
    forall a, b :: 0 <= a < b < |xs| ==>
      xs[a] < |s| && xs[b] < |s| && !lt(key(s[xs[b]]), key(s[xs[a]]))
  }

  /**
    Positions listed in decreasing order pick, from the reversal of a
    sorted list, elements in ascending key order.
  */
  lemma ReversedPositions<T, K>(sorted: seq<T>, xs: seq<nat>, key: T -> K, lt: (K, K) -> bool)
    requires Sorting.Sorted(sorted, key, lt)
    requires Treeify.StrictlyDecreasing(xs)
    requires forall x :: x in xs ==> x < |sorted|
    ensures AscendingAt(Reverse(sorted), xs, key, lt)
  {
    var s := Reverse(sorted);
    forall a, b | 0 <= a < b < |xs|
      ensures xs[a] < |s| && xs[b] < |s| && !lt(key(s[xs[b]]), key(s[xs[a]]))
    {
      assert xs[a] in xs && xs[b] in xs;
      ReversedPair(sorted, xs[b], xs[a], key, lt);
    }
  }

  /** Two positions of the reversed sorted list, the later one first. */
  lemma ReversedPair<T, K>(sorted: seq<T>, x: nat, y: nat, key: T -> K, lt: (K, K) -> bool)
    requires Sorting.Sorted(sorted, key, lt)
    requires x < y < |sorted|
    ensures !lt(key(Reverse(sorted)[x]), key(Reverse(sorted)[y]))
  {
    var s := Reverse(sorted);
    assert s[x] == sorted[|sorted| - 1 - x] && s[y] == sorted[|sorted| - 1 - y];
  }

  /**
    The location list's roots, and the children of every location, come out
    in ascending title order: `treeify` lists positions in decreasing order,
    which undoes the reversal of the sorted list.  So they follow the order
    of the sorted list, in which locations of equal title keep their input
    order (`Sorting.SortByStable`).
  */
  lemma LocationOrder(locations: seq<Location>, p: nat)
    ensures AscendingAt(Arranged(locations), Treeify.Roots(Arranged(locations), "value"), TitleOf, StrLt)
    ensures AscendingAt(Arranged(locations), Treeify.ChildrenOf(Arranged(locations), "value", p), TitleOf, StrLt)
  {
    var recs := Records(locations);
    var sorted := Sorting.SortBy(recs, TitleOf, StrLt);
    var s := Reverse(sorted);
    assert s == Arranged(locations);
    StrLtOrder();
    Sorting.SortBySorted(recs, TitleOf, StrLt);
    Treeify.RootsFromSpec(s, "value", 0);
    Treeify.ChildrenFromSpec(s, "value", p, 0);
    ReversedPositions(sorted, Treeify.Roots(s, "value"), TitleOf, StrLt);
    ReversedPositions(sorted, Treeify.ChildrenOf(s, "value", p), TitleOf, StrLt);
  }
}
