/** The shapes of the session/event provider's unit records, as the connector and the naming rule read them. */
module WialonRecords {
  import opened Wrappers

  /** One custom profile field of a unit (`pflds` values): its name `n` and value `v`. */
  datatype ProfileField = ProfileField(n: string, v: string)

  /** A unit of the unit list: id, free-text name `nm`, and the profile fields in dictionary order. */
  datatype WialonUnit = WialonUnit(id: int, nm: string, pflds: seq<ProfileField>)

  /** The position of a last message: `y` latitude, `x` longitude, `s` speed. */
  datatype Pos = Pos(y: real, x: real, s: real)

  /** A unit's last message: time `t`, optional position, receive time `rt`, parameters `p`. */
  datatype LastMessage = LastMessage(t: int, pos: Option<Pos>, rt: int, p: map<string, real>)

  /** A unit of the current-state list. */
  datatype WialonState = WialonState(id: int, lmsg: LastMessage)

  /** `[f['v'] for f in pflds.values() if f['n'] == name]` and its first element, if any. */
  function FirstFieldValue(fields: seq<ProfileField>, name: string): (r: Option<string>)
    ensures r.None? <==> forall i :: 0 <= i < |fields| ==> fields[i].n != name
    ensures r.Some? ==> exists i :: 0 <= i < |fields| && fields[i].n == name && fields[i].v == r.value
                                    && forall j :: 0 <= j < i ==> fields[j].n != name
  {
    if fields == [] then None
    else if fields[0].n == name then Some(fields[0].v)
    else
      var rest := FirstFieldValue(fields[1..], name);
      assert forall j :: 1 <= j < |fields| ==> fields[j] == fields[1..][j - 1];
      rest
  }

  /** The dictionary built per unit for the cars table: profile fields that are absent stay None. */
  datatype UnitProps = UnitProps(
    id: int,
    name: string,
    department: Option<string>,
    model: Option<string>,
    regNumber: Option<string>)
}
