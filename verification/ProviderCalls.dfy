/** The shared service base: one instrumented provider call, run without interruption on the injector
    and recorder objects. `Uninterrupted` shows it to be one schedule of the concurrent pipeline. */
module ProviderCalls {
  import opened Wrappers
  import opened Errors
  import opened Text
  import opened RuleSearch
  import opened Pipeline
  import Rec = Recording
  import Reg = Registry
  import FailureInjection
  import Operations

  class ProviderService {
    const serviceName: string
    const providerName: string
    const injector: FailureInjection.FailureInjector
    const recorder: Operations.OperationRecorder

    constructor (serviceName: string, providerName: string, injector: FailureInjection.FailureInjector,
      recorder: Operations.OperationRecorder)
      ensures this.serviceName == serviceName && this.providerName == providerName
      ensures this.injector == injector && this.recorder == recorder
    {
      this.serviceName, this.providerName := serviceName, providerName;
      this.injector, this.recorder := injector, recorder;
    }

    ghost predicate Valid()
      reads injector, injector.created, recorder, recorder.totals, recorder.buckets
    {
      injector.Valid() && recorder.Valid()
    }

    /** The log has grown by exactly one record, which says this. */
    ghost predicate WroteOne(before: seq<Rec.OperationRecord>, operation: string, resource: Option<Str>,
      requestId: Option<string>, status: string, error: Option<ErrorCode>, retryable: Option<bool>, durationMs: real,
      timestamp: real)
      reads recorder`log
    {
      && |recorder.log| == |before| + 1 && recorder.log[..|before|] == before
      && var r := recorder.log[|before|];
         && r.service == serviceName && r.operation == operation && r.provider == providerName
         && r.resource == resource && r.requestId == requestId
         && r.status == status && r.error == error && r.retryable == retryable
         && r.duration as real - 0.5 <= 100.0 * durationMs <= r.duration as real + 0.5
         && r.timestamp == timestamp
    }

    /** `_call`. The callable is given by what it would do if it ran, `fn`; `ran` tells whether it did.
        `rolls`, `durationMs` and `timestamp` stand for the random numbers and the clock. */
    method Call(operation: string, fn: FnOutcome, resource: Option<Str>, requestId: Option<string>, rolls: Rolls,
      durationMs: real, timestamp: real) returns (end: End, ran: bool, sleptMs: int)
      requires Valid()
      modifies injector, injector.created, recorder, recorder.totals, recorder.buckets
      ensures Valid()
      ensures var a := ApplySpec(old(injector.view), serviceName, operation, rolls);
        && injector.view == a.reg && sleptMs == a.sleptMs
        && ran == (a.raised == None)
        && end == (if a.raised.Some? then Failure(a.raised.value) else EndOf(fn))
      ensures recorder.view ==
        if end == Unlisted then old(recorder.view)
        else Rec.Record(old(recorder.view),
                        ReportOf(NewCall(serviceName, operation, providerName, resource, requestId), end, durationMs),
                        timestamp)
      ensures ran ==>
        match fn
        case Returned => end == Success
        case RaisedApp(e) => end == Failure(e)
        case RaisedBoto(e) => end == Failure(e)
        case RaisedOther => end == Unlisted
      ensures match end
        case Success => WroteOne(old(recorder.log), operation, resource, requestId, "success", None, None,
                                 durationMs, timestamp)
        case Failure(e) => WroteOne(old(recorder.log), operation, resource, requestId, "error", Some(e.code),
                                    Some(e.retryable), durationMs, timestamp)
        case Unlisted => recorder.log == old(recorder.log)
    {
      end, ran, sleptMs := Attempt(operation, fn, rolls);
      if end == Unlisted {
        return;
      }
      WriteRecord(operation, end, resource, requestId, durationMs, timestamp);
    }

    /** The `try` block of `_call`: the injector first, then the real call unless the injector raised. */
    method Attempt(operation: string, fn: FnOutcome, rolls: Rolls) returns (end: End, ran: bool, sleptMs: int)
      requires Valid()
      modifies injector`view, injector.created
      ensures Valid()
      ensures var a := ApplySpec(old(injector.view), serviceName, operation, rolls);
        && injector.view == a.reg && sleptMs == a.sleptMs
        && ran == (a.raised == None)
        && end == (if a.raised.Some? then Failure(a.raised.value) else EndOf(fn))
    {
      var used, raised;
      used, sleptMs, raised := injector.Apply(serviceName, operation, rolls);
      ran := raised == None;
      if raised.Some? {
        end := Failure(raised.value);
      } else {
        match fn {
          case Returned => end := Success;
          case RaisedApp(error) => end := Failure(error);
          case RaisedBoto(translated) => end := Failure(translated);
          case RaisedOther => end := Unlisted;
        }
      }
    }

    /** The record each listed branch of `_call` writes. */
    method WriteRecord(operation: string, end: End, resource: Option<Str>, requestId: Option<string>,
      durationMs: real, timestamp: real)
      requires Valid() && end != Unlisted
      modifies recorder, recorder.totals, recorder.buckets
      ensures Valid()
      ensures recorder.view ==
        Rec.Record(old(recorder.view),
                   ReportOf(NewCall(serviceName, operation, providerName, resource, requestId), end, durationMs),
                   timestamp)
      ensures match end
        case Failure(e) => WroteOne(old(recorder.log), operation, resource, requestId, "error", Some(e.code),
                                    Some(e.retryable), durationMs, timestamp)
        case _ => WroteOne(old(recorder.log), operation, resource, requestId, "success", None, None,
                           durationMs, timestamp)
    {
      var report := match end
        case Failure(e) =>
          Rec.Report(serviceName, operation, providerName, "error", durationMs, requestId, resource,
                     Some(e.code), Some(e.retryable))
        case _ =>
          Rec.Report(serviceName, operation, providerName, "success", durationMs, requestId, resource, None, None);
      recorder.Record(report, timestamp);
    }
  }
}
