/**
 `fetchDraftJob` and `scheduleService`: the draft restock job is read from
 the job service and aliased, then turned into the payload submitted to
 schedule it. The job service's responses, the store's schedule and user
 state and the formatted creation time are inputs; the submission itself
 and its notifications are not modelled.
 */
module Scheduling {
  import opened Wrappers
  import opened JsValues

  /** `state.schedule`: the name and time chosen on the schedule page. */
  datatype ScheduleState = ScheduleState(restockName: Value, scheduledTime: Value)

  /** `this.state.user.current` */
  datatype CurrentUser = CurrentUser(userTimeZone: Value, userLoginId: Value)

  /**
   Why no payload was built: no draft job (the action shows "Configuration
   missing" and returns), or no scheduled time (`toString` of `undefined`
   throws before the submission is attempted).
   */
  datatype ScheduleError = ConfigurationMissing | ScheduledTimeMissing

  /** The job service's answer to the draft-job query. */
  datatype JobQueryResponse = QueryError | QueryOk(docs: seq<map<string, Value>>)

  /** The `fieldList` of the draft-job query: the only properties a returned document carries. */
  const DraftJobFields: seq<string> :=
    ["systemJobEnumId", "runTime", "tempExprId", "parentJobId", "serviceName", "jobId", "jobName",
     "currentRetryCount", "statusId", "runtimeDataId", "productStoreId", "priority"]

  /** The document holds only properties the query asked for. */
  predicate FromDraftQuery(doc: map<string, Value>)
  {
    forall k :: k in doc ==> k in DraftJobFields
  }

  const AliasKeys: set<string> := {"status", "enumId", "frequency", "id"}

  /**
   `fetchDraftJob`: the first document, spread and extended with the alias
   properties; `{}` when the query failed or found nothing.
   */
  function DraftJob(resp: JobQueryResponse): (job: map<string, Value>)
    ensures resp.QueryError? || |resp.docs| == 0 ==> job == map[]
    ensures resp.QueryOk? && |resp.docs| > 0 ==>
              var doc := resp.docs[0];
              && job.Keys == doc.Keys + AliasKeys
              && job["status"] == Get(doc, "statusId")
              && job["enumId"] == Get(doc, "systemJobEnumId")
              && job["frequency"] == Get(doc, "tempExprId")
              && job["id"] == Get(doc, "jobId")
              && forall k :: k in doc && k !in AliasKeys ==> job[k] == doc[k]
  {
    match resp
    case QueryError => map[]
    case QueryOk(docs) =>
      if |docs| == 0 then map[]
      else
        var doc := docs[0];
        doc + map["status" := Get(doc, "statusId"),
                  "enumId" := Get(doc, "systemJobEnumId"),
                  "frequency" := Get(doc, "tempExprId"),
                  "id" := Get(doc, "jobId")]
  }

  /** `restockName || state.schedule.restockName || \`Created ${stamp}\`` */
  function JobName(restockName: Value, stateName: Value, createdStamp: string): Value
  {
    if Truthy(restockName) then restockName
    else if Truthy(stateName) then stateName
    else Text("Created " + createdStamp)
  }

  /** The object literal, before `...params` is spread into it. */
  function LiteralFields(job: map<string, Value>, recurrence: Value, jobName: Value, user: CurrentUser)
    : map<string, Value>
  {
    map[
      "JOB_NAME" := jobName,
      "SERVICE_NAME" := Text("shipPackedOrders"),
      "SERVICE_COUNT" := Text("0"),
      "SERVICE_TEMP_EXPR" := recurrence,
      "SERVICE_RUN_AS_SYSTEM" := Text("Y"),
      "jobFields" := Object(map[
        "systemJobEnumId" := Get(job, "systemJobEnumId"),
        "tempExprId" := recurrence,
        "maxRecurrenceCount" := Text("-1"),
        "parentJobId" := Get(job, "parentJobId"),
        "runAsUser" := Text("system"),
        "recurrenceTimeZone" := user.userTimeZone,
        "createdByUserLogin" := user.userLoginId,
        "lastModifiedByUserLogin" := user.userLoginId]),
      "statusId" := Text("SERVICE_PENDING"),
      "systemJobEnumId" := Get(job, "systemJobEnumId")]
  }

  /** Keys the three assignments after the spread may write. */
  predicate AssignedAfterSpread(job: map<string, Value>, k: string)
  {
    k == "SERVICE_TIME"
    || (k == "SERVICE_PRIORITY" && Truthy(Get(job, "priority")))
    || (k == "sinceId" && Truthy(Get(job, "sinceId")))
  }

  /**
   The payload, given the value the job's recurrence is read as. The
   literal fields come first, `params` override them, and the priority,
   scheduled time and `sinceId` assignments override both.
   */
  function SchedulePayload(
    job: map<string, Value>,
    recurrence: Value,
    params: map<string, Value>,
    restockName: Value,
    schedule: ScheduleState,
    user: CurrentUser,
    createdStamp: string): (r: Result<map<string, Value>, ScheduleError>)
    ensures r == Failure(ConfigurationMissing) <==> !Truthy(Get(job, "jobId"))
    ensures r == Failure(ScheduledTimeMissing) <==> Truthy(Get(job, "jobId")) && schedule.scheduledTime.Undefined?
    ensures r.Success? ==>
              var literal := LiteralFields(job, recurrence, JobName(restockName, schedule.restockName, createdStamp), user);
              var payload := r.value;
              && (forall k :: k in payload <==> k in literal || k in params || AssignedAfterSpread(job, k))
              && Get(payload, "SERVICE_TIME") == Text(ToText(schedule.scheduledTime))
              && (Truthy(Get(job, "priority")) ==> Get(payload, "SERVICE_PRIORITY") == Text(ToText(Get(job, "priority"))))
              && (Truthy(Get(job, "sinceId")) ==> Get(payload, "sinceId") == Get(job, "sinceId"))
              && (forall k :: k in params && !AssignedAfterSpread(job, k) ==> Get(payload, k) == params[k])
              && (forall k :: k in literal && k !in params && !AssignedAfterSpread(job, k) ==> Get(payload, k) == literal[k])
  {
    if !Truthy(Get(job, "jobId")) then Failure(ConfigurationMissing)
    else
      var jobName := JobName(restockName, schedule.restockName, createdStamp);
      var spread := LiteralFields(job, recurrence, jobName, user) + params;
      var priority := Get(job, "priority");
      var withPriority := if Truthy(priority) then spread["SERVICE_PRIORITY" := Text(ToText(priority))] else spread;
      if schedule.scheduledTime.Undefined? then Failure(ScheduledTimeMissing)
      else
        var withTime := withPriority["SERVICE_TIME" := Text(ToText(schedule.scheduledTime))];
        var sinceId := Get(job, "sinceId");
        Success(if Truthy(sinceId) then withTime["sinceId" := sinceId] else withTime)
  }

  /**
   `scheduleService` as written: the recurrence is read from the job's
   `jobStatus` property.
   */
  function ScheduleService(
    job: map<string, Value>,
    params: map<string, Value>,
    restockName: Value,
    schedule: ScheduleState,
    user: CurrentUser,
    createdStamp: string): (r: Result<map<string, Value>, ScheduleError>)
    ensures r.Failure? <==> !Truthy(Get(job, "jobId")) || schedule.scheduledTime.Undefined?
    ensures r.Success? && "SERVICE_TEMP_EXPR" !in params ==> Get(r.value, "SERVICE_TEMP_EXPR") == Get(job, "jobStatus")
    ensures r.Success? && "JOB_NAME" !in params ==>
              Get(r.value, "JOB_NAME") == JobName(restockName, schedule.restockName, createdStamp)
  {
    SchedulePayload(job, Get(job, "jobStatus"), params, restockName, schedule, user, createdStamp)
  }

  /** `scheduleService` reading the recurrence from the draft job's `frequency` alias. */
  function ScheduleServiceWithFrequency(
    job: map<string, Value>,
    params: map<string, Value>,
    restockName: Value,
    schedule: ScheduleState,
    user: CurrentUser,
    createdStamp: string): (r: Result<map<string, Value>, ScheduleError>)
    ensures r.Failure? <==> !Truthy(Get(job, "jobId")) || schedule.scheduledTime.Undefined?
    ensures r.Success? && "SERVICE_TEMP_EXPR" !in params ==> Get(r.value, "SERVICE_TEMP_EXPR") == Get(job, "frequency")
    ensures r.Success? && "JOB_NAME" !in params ==>
              Get(r.value, "JOB_NAME") == JobName(restockName, schedule.restockName, createdStamp)
  {
    SchedulePayload(job, Get(job, "frequency"), params, restockName, schedule, user, createdStamp)
  }

  /** The job name is the first truthy of the two names, else the generated default. */
  lemma JobNameFallback(restockName: Value, stateName: Value, createdStamp: string)
    ensures Truthy(JobName(restockName, stateName, createdStamp))
    ensures Truthy(restockName) ==> JobName(restockName, stateName, createdStamp) == restockName
    ensures !Truthy(restockName) && Truthy(stateName) ==> JobName(restockName, stateName, createdStamp) == stateName
    ensures !Truthy(restockName) && !Truthy(stateName) ==>
              JobName(restockName, stateName, createdStamp).Text?
              && JobName(restockName, stateName, createdStamp).text[..8] == "Created "
  {
  }

  /** A failed or empty draft-job query makes scheduling stop before any payload exists. */
  lemma NoDraftJobAborts(resp: JobQueryResponse, params: map<string, Value>, restockName: Value,
                         schedule: ScheduleState, user: CurrentUser, createdStamp: string)
    requires resp.QueryError? || |resp.docs| == 0
    ensures ScheduleService(DraftJob(resp), params, restockName, schedule, user, createdStamp)
            == Failure(ConfigurationMissing)
    ensures ScheduleServiceWithFrequency(DraftJob(resp), params, restockName, schedule, user, createdStamp)
            == Failure(ConfigurationMissing)
  {
  }

  /** A draft document with a job id passes the guard (given a scheduled time). */
  lemma DraftJobWithIdSchedules(docs: seq<map<string, Value>>, params: map<string, Value>, restockName: Value,
                                schedule: ScheduleState, user: CurrentUser, createdStamp: string)
    requires |docs| > 0 && Truthy(Get(docs[0], "jobId"))
    requires !schedule.scheduledTime.Undefined?
    ensures ScheduleService(DraftJob(QueryOk(docs)), params, restockName, schedule, user, createdStamp).Success?
    ensures ScheduleServiceWithFrequency(DraftJob(QueryOk(docs)), params, restockName, schedule, user, createdStamp).Success?
  {
    assert "jobId" in docs[0];
  }

  /**
   A draft job as `fetchDraftJob` builds it never has a `jobStatus`
   property, so the payload as written carries `undefined` as the
   recurrence, whatever the draft's `tempExprId` is.
   */
  lemma RecurrenceLostAsWritten(doc: map<string, Value>, restockName: Value, schedule: ScheduleState,
                                user: CurrentUser, createdStamp: string)
    requires FromDraftQuery(doc)
    requires Truthy(Get(doc, "jobId")) && !schedule.scheduledTime.Undefined?
    ensures var r := ScheduleService(DraftJob(QueryOk([doc])), map[], restockName, schedule, user, createdStamp);
            && r.Success?
            && Get(r.value, "SERVICE_TEMP_EXPR") == Undefined
            && Get(r.value, "jobFields").Object?
            && Get(Get(r.value, "jobFields").fields, "tempExprId") == Undefined
  {
    var job := DraftJob(QueryOk([doc]));
    NoJobStatusInDraft(doc);
    assert "jobStatus" !in job;
    assert "jobId" in doc && Get(job, "jobId") == Get(doc, "jobId");
    RecurrenceInPayload(job, Undefined, restockName, schedule, user, createdStamp);
  }

  /** The draft query does not ask for a `jobStatus` property. */
  lemma NoJobStatusInDraft(doc: map<string, Value>)
    requires FromDraftQuery(doc)
    ensures "jobStatus" !in doc
  {
    assert "jobStatus" !in DraftJobFields;
  }

  /** Read from `frequency`, the payload carries the draft's `tempExprId` in both places. */
  lemma RecurrenceKeptWithFrequency(doc: map<string, Value>, restockName: Value, schedule: ScheduleState,
                                    user: CurrentUser, createdStamp: string)
    requires Truthy(Get(doc, "jobId")) && !schedule.scheduledTime.Undefined?
    ensures var r := ScheduleServiceWithFrequency(DraftJob(QueryOk([doc])), map[], restockName, schedule, user, createdStamp);
            && r.Success?
            && Get(r.value, "SERVICE_TEMP_EXPR") == Get(doc, "tempExprId")
            && Get(r.value, "jobFields").Object?
            && Get(Get(r.value, "jobFields").fields, "tempExprId") == Get(doc, "tempExprId")
  {
    var job := DraftJob(QueryOk([doc]));
    assert "jobId" in doc && Get(job, "jobId") == Get(doc, "jobId");
    assert Get(job, "frequency") == Get(doc, "tempExprId");
    RecurrenceInPayload(job, Get(doc, "tempExprId"), restockName, schedule, user, createdStamp);
  }

  /** Without `params`, the recurrence appears both at the top level and in `jobFields`. */
  lemma RecurrenceInPayload(job: map<string, Value>, recurrence: Value, restockName: Value,
                            schedule: ScheduleState, user: CurrentUser, createdStamp: string)
    requires Truthy(Get(job, "jobId")) && !schedule.scheduledTime.Undefined?
    ensures var r := SchedulePayload(job, recurrence, map[], restockName, schedule, user, createdStamp);
            && r.Success?
            && Get(r.value, "SERVICE_TEMP_EXPR") == recurrence
            && Get(r.value, "jobFields").Object?
            && Get(Get(r.value, "jobFields").fields, "tempExprId") == recurrence
  {
    var literal := LiteralFields(job, recurrence, JobName(restockName, schedule.restockName, createdStamp), user);
    assert "jobFields" in literal && "SERVICE_TEMP_EXPR" in literal;
    assert !AssignedAfterSpread(job, "jobFields") && !AssignedAfterSpread(job, "SERVICE_TEMP_EXPR");
  }
}
