/** The thermostat commands: an indefinite hold at given cool and heat
    setpoints (`set_temperatures()` and its two one-sided forms) and
    `resume_schedule()`. Temperatures are integer tenths of a degree, the
    unit the service uses for `desiredCool`, `desiredHeat` and the hold
    parameters. */
module Holds {
  import opened Results
  import opened JsonValues
  import opened Schema
  import opened Api

  /** A setpoint the stored runtime facet reports, in tenths; a missing
      or non-numeric value counts as 0, as `null / 10` does. */
  function Desired(row: Thermostat, key: string): (r: int)
    ensures Get(row.Facet(Runtime), key).JNum? ==> r == Get(row.Facet(Runtime), key).n
    ensures !Get(row.Facet(Runtime), key).JNum? ==> r == 0
  {
    match Get(row.Facet(Runtime), key)
    case JNum(n) => n
    case _ => 0
  }

  /** The two setpoints of a hold. */
  datatype Hold = Hold(cool: int, heat: int)

  /** The hold `set_temperatures()` places: a given side is used as is,
      an unspecified side keeps the setpoint the thermostat currently
      wants. */
  function Choose(row: Thermostat, cool: Option<int>, heat: Option<int>): (r: Hold)
    ensures r.cool == cool.GetOr(Desired(row, "desiredCool"))
    ensures r.heat == heat.GetOr(Desired(row, "desiredHeat"))
  {
    Hold(
      if cool.Some? then cool.value else Desired(row, "desiredCool"),
      if heat.Some? then heat.value else Desired(row, "desiredHeat"))
  }

  /** `selection` of a command aimed at one registered thermostat. */
  function Selection(identifier: string): Json {
    JObj(map["selectionType" := JStr("registered"), "selectionMatch" := JStr(identifier)])
  }

  /** The body of the `setHold` command. */
  function SetHoldBody(identifier: string, hold: Hold): Json {
    JObj(map[
      "selection" := Selection(identifier),
      "functions" := JArr([JObj(map[
        "type" := JStr("setHold"),
        "params" := JObj(map[
          "holdType" := JStr("indefinite"),
          "coolHoldTemp" := JNum(hold.cool),
          "heatHoldTemp" := JNum(hold.heat)])])])])
  }

  /** The body of the `resumeProgram` command. */
  function ResumeBody(identifier: string): Json {
    JObj(map[
      "selection" := Selection(identifier),
      "functions" := JArr([JObj(map["type" := JStr("resumeProgram")])])])
  }

  /** The POST arguments of a command: `format=json` and the body. */
  function CommandArgs(body: Json): (r: Args)
    ensures r.Keys == {"format", "body"}
    ensures r["format"] == Plain("json") && r["body"] == Document(body)
  {
    map["format" := Plain("json"), "body" := Document(body)]
  }

  /** The command a service reads from a body: the target thermostat and
      the function's type. */
  function Target(body: Json): string {
    AsText(Get(Get(body, "selection"), "selectionMatch"))
  }

  function Command(body: Json): Json {
    At(Get(body, "functions"), 0)
  }

  /** A hold body reads back as one indefinite `setHold` at exactly the
      chosen setpoints, aimed at the thermostat's identifier. */
  lemma SetHoldReadsBack(identifier: string, hold: Hold)
    ensures Target(SetHoldBody(identifier, hold)) == identifier
    ensures Get(Command(SetHoldBody(identifier, hold)), "type") == JStr("setHold")
    ensures var params := Get(Command(SetHoldBody(identifier, hold)), "params");
      && Get(params, "holdType") == JStr("indefinite")
      && Get(params, "coolHoldTemp") == JNum(hold.cool)
      && Get(params, "heatHoldTemp") == JNum(hold.heat)
  {
  }

  /** A resume body reads back as one `resumeProgram` aimed at the
      thermostat's identifier. */
  lemma ResumeReadsBack(identifier: string)
    ensures Target(ResumeBody(identifier)) == identifier
    ensures Get(Command(ResumeBody(identifier)), "type") == JStr("resumeProgram")
    ensures Items(Get(ResumeBody(identifier), "functions")) == [Command(ResumeBody(identifier))]
  {
  }

  /** Setting one side leaves the other at what the thermostat wants now;
      setting neither holds at both current setpoints. */
  lemma OneSidedHoldKeepsOtherSide(row: Thermostat, t: int)
    ensures Choose(row, Some(t), None) == Hold(t, Desired(row, "desiredHeat"))
    ensures Choose(row, None, Some(t)) == Hold(Desired(row, "desiredCool"), t)
    ensures Choose(row, None, None) == Hold(Desired(row, "desiredCool"), Desired(row, "desiredHeat"))
  {
  }
}
