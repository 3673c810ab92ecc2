/**
 * routes/service_tickets.py: the unfiltered ticket listing, with its own copy
 * of the store-value conversion.
 */
module ServiceTickets {
  import opened Wrappers
  import opened DocStore
  import Technicians

  /**
   * This module's `convert_objectid_to_str`, written out again as the source
   * repeats it: ObjectIds and datetime, Decimal and BSON values become
   * strings, dicts and lists are converted element-wise, the rest is kept.
   */
  function ConvertObjectIdToStr(v: Value): (r: Value)
    ensures v.ObjectId? ==> r == Str(v.hex)
    ensures v.Object? && v.className in Technicians.StringifiedClasses ==> r == Str(v.text)
    ensures !v.ObjectId? && !v.Dict? && !v.List? && !(v.Object? && v.className in Technicians.StringifiedClasses) ==> r == v
    ensures v.Dict? ==>
              (r.Dict? && |r.entries| == |v.entries| &&
               forall i :: 0 <= i < |v.entries| ==> r.entries[i] == (v.entries[i].0, ConvertObjectIdToStr(v.entries[i].1)))
    ensures v.List? ==>
              (r.List? && |r.items| == |v.items| &&
               forall i :: 0 <= i < |v.items| ==> r.items[i] == ConvertObjectIdToStr(v.items[i]))
  {
    match v
    case ObjectId(h) => Str(h)
    case Dict(es) => Dict(seq(|es|, i requires 0 <= i < |es| => (es[i].0, ConvertObjectIdToStr(es[i].1))))
    case List(xs) => List(seq(|xs|, i requires 0 <= i < |xs| => ConvertObjectIdToStr(xs[i])))
    case Object(cls, text) => if cls in {"datetime", "Decimal", "BSON"} then Str(text) else v
    case _ => v
  }

  /** The two copies agree on every value. */
  lemma {:induction false} SameAsTechniciansCopy(v: Value)
    ensures ConvertObjectIdToStr(v) == Technicians.ConvertObjectIdToStr(v)
  {
    match v
    case Dict(es) =>
      forall i | 0 <= i < |es| ensures ConvertObjectIdToStr(v).entries[i] == Technicians.ConvertObjectIdToStr(v).entries[i] {
        SameAsTechniciansCopy(es[i].1);
      }
    case List(xs) =>
      forall i | 0 <= i < |xs| ensures ConvertObjectIdToStr(v).items[i] == Technicians.ConvertObjectIdToStr(v).items[i] {
        SameAsTechniciansCopy(xs[i]);
      }
    case _ =>
  }

  /** This copy, too, is idempotent and leaves no ObjectId outside tuples. */
  lemma ConvertIdempotent(v: Value)
    ensures ConvertObjectIdToStr(ConvertObjectIdToStr(v)) == ConvertObjectIdToStr(v)
    ensures Technicians.Transportable(ConvertObjectIdToStr(v))
  {
    SameAsTechniciansCopy(v);
    SameAsTechniciansCopy(ConvertObjectIdToStr(v));
    Technicians.ConvertIdempotent(v);
  }

  const MsgTicketsPrefix := "Error fetching service tickets: "

  /** `{}`: no condition, so every ticket matches. */
  function AllTickets(): (f: Filter)
    ensures f.Keys == {}
  {
    map[]
  }

  /** The body of `/service-tickets`. */
  datatype TicketsPage = TicketsPage(
    success: bool,
    data: seq<Value>,
    totalCount: nat,
    limit: int,
    returnedCount: nat)

  /** The fetched tickets converted with this module's copy of the conversion. */
  function ConvertTickets(docs: seq<Value>): (r: seq<Value>)
    ensures |r| == |docs|
    ensures forall i :: 0 <= i < |docs| ==> r[i] == Technicians.ConvertObjectIdToStr(docs[i])
  {
    var converted := ConvertObjectIdToStr(List(docs));
    forall i | 0 <= i < |docs| ensures converted.items[i] == Technicians.ConvertObjectIdToStr(docs[i]) {
      SameAsTechniciansCopy(docs[i]);
    }
    converted.items
  }

  /**
   * `get_service_tickets`: the count of the whole collection and the first
   * `limit` tickets, converted. Every exception becomes a 500.
   */
  function GetServiceTickets(
    limit: int,
    database: Result<(), Exc>,
    countDocuments: Filter -> Result<nat, Exc>,
    find: Filter -> Result<seq<Value>, Exc>): (r: Reply<TicketsPage>)
    ensures !LimitInRange(limit) <==> r.Unprocessable?
    ensures LimitInRange(limit) && database.Failure? ==>
      r == HttpError(500, MsgTicketsPrefix + database.error.msg)
    ensures LimitInRange(limit) && database.Success? && countDocuments(AllTickets()).Failure? ==>
      r == HttpError(500, MsgTicketsPrefix + countDocuments(AllTickets()).error.msg)
    ensures LimitInRange(limit) && database.Success? && countDocuments(AllTickets()).Success? &&
            find(AllTickets()).Failure? ==>
      r == HttpError(500, MsgTicketsPrefix + find(AllTickets()).error.msg)
    ensures r.HttpError? ==>
              (r.status == 500 && |r.detail| >= |MsgTicketsPrefix| &&
               r.detail[..|MsgTicketsPrefix|] == MsgTicketsPrefix)
    ensures r.Ok? <==>
              (LimitInRange(limit) && database.Success? &&
               countDocuments(AllTickets()).Success? && find(AllTickets()).Success?)
    ensures r.Ok? ==>
      var p := r.body;
      p.success && p.limit == limit && 1 <= p.limit <= 1000 &&
      p.returnedCount == |p.data| <= limit &&
      p.totalCount == countDocuments(map[]).value &&
      p.data == Technicians.ConvertAll(Take(find(map[]).value, limit)) &&
      forall i :: 0 <= i < |p.data| ==> Technicians.Transportable(p.data[i])
  {
    if !LimitInRange(limit) then Unprocessable
    else if database.Failure? then HttpError(500, MsgTicketsPrefix + database.error.msg)
    else
      match countDocuments(AllTickets())
      case Failure(e) => HttpError(500, MsgTicketsPrefix + e.msg)
      case Success(total) =>
        match find(AllTickets())
        case Failure(e) => HttpError(500, MsgTicketsPrefix + e.msg)
        case Success(docs) =>
          var data := ConvertTickets(Take(docs, limit));
          Ok(TicketsPage(true, data, total, limit, |data|))
  }
}
