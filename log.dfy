/**
 * The diagnostic sink of dbusapi/log.py: a set of registered issue codes
 * and an append-only list of issues, each tagged with the log's domain.
 */
module DiagnosticLog {
  import opened Wrappers

  /** The tuple `(location, domain, code, message)` built by `_create_entry`;
      the location is always `None`. */
  datatype Issue = Issue(location: Option<string>, domain: string, code: string, message: string)

  class Log {
    var issues: seq<Issue>
    var issueCodes: set<string>
    /** A plain attribute: a specialised log sets its own domain. */
    var domain: string

    constructor ()
      ensures issues == [] && issueCodes == {} && domain == "default"
    {
      issues := [];
      issueCodes := {};
      domain := "default";
    }

    /** Set insertion: a code registered again is silently ignored. */
    method RegisterIssueCode(code: string)
      modifies this`issueCodes
      ensures issueCodes == old(issueCodes) + {code}
      ensures code in issueCodes
    {
      issueCodes := issueCodes + {code};
    }

    /** `_create_entry`: the issue recorded for `code` and `message`. */
    function CreateEntry(code: string, message: string): Issue
      reads this`domain
    {
      Issue(None, domain, code, message)
    }

    /** Only registered codes may be logged (the source asserts it); the
        new entry goes at the end and earlier entries stay as they were. */
    method LogIssue(code: string, message: string)
      requires code in issueCodes
      modifies this`issues
      ensures issues == old(issues) + [CreateEntry(code, message)]
      ensures |issues| == |old(issues)| + 1 && issues[..|old(issues)|] == old(issues)
      ensures issues[|issues| - 1] == Issue(None, domain, code, message)
    {
      issues := issues + [CreateEntry(code, message)];
    }

    /** Empties the issue list; codes and domain are fields it does not touch. */
    method Clear()
      modifies this`issues
      ensures issues == []
    {
      issues := [];
    }
  }

  /** Registering a code twice has the effect of registering it once. */
  method RegisterTwice(log: Log, code: string)
    modifies log`issueCodes
    ensures log.issueCodes == old(log.issueCodes) + {code}
  {
    log.RegisterIssueCode(code);
    log.RegisterIssueCode(code);
  }

  /** Successive issues are kept in the order they were logged. */
  method LogInOrder(log: Log, code1: string, message1: string, code2: string, message2: string)
    requires code1 in log.issueCodes && code2 in log.issueCodes
    modifies log`issues
    ensures log.issues == old(log.issues) + [log.CreateEntry(code1, message1), log.CreateEntry(code2, message2)]
  {
    log.LogIssue(code1, message1);
    log.LogIssue(code2, message2);
  }

  /**
   * A fresh log, one registered code and two issues, then `clear`: the
   * issues go, the registered code and the domain stay.
   */
  method ClearKeepsCodes(code: string, message: string)
    returns (before: seq<Issue>, after: seq<Issue>, codes: set<string>, domain: string)
    ensures before == [Issue(None, "default", code, message), Issue(None, "default", code, message)]
    ensures after == [] && codes == {code} && domain == "default"
  {
    var log := new Log();
    log.RegisterIssueCode(code);
    LogInOrder(log, code, message, code, message);
    before := log.issues;
    log.Clear();
    after, codes, domain := log.issues, log.issueCodes, log.domain;
  }
}
