/**
 * The query helpers over uploaded documents, processing requests and their
 * statuses (src/utils/dataUtils.ts): first-match lookups by id, filters by a
 * field, and totals and averages of processing times and file sizes.
 */
module DataUtils {
  import opened Maybe
  import opened Seqs

  datatype DocumentUpload = DocumentUpload(id: string, fileName: string, fileType: string, fileSize: nat, status: string)

  /** What the processing service sent back for a request; only its processing time is read here. */
  datatype PythonResponse = PythonResponse(processingTime: int)

  datatype PythonProcessingRequest = PythonProcessingRequest(
    id: string,
    documentIds: seq<string>,
    organization: string,
    status: string,
    pythonResponse: Option<PythonResponse>)

  datatype ProcessingStatus = ProcessingStatus(requestId: string, status: string, progress: int, currentStep: string)

  // ---- lookups by id ----

  function DocumentHasId(id: string): DocumentUpload -> bool {
    (doc: DocumentUpload) => doc.id == id
  }

  function RequestHasId(id: string): PythonProcessingRequest -> bool {
    (req: PythonProcessingRequest) => req.id == id
  }

  function StatusHasRequestId(requestId: string): ProcessingStatus -> bool {
    (status: ProcessingStatus) => status.requestId == requestId
  }

  /** `getDocumentUploadById`: a document with that id, or none when no document has it. */
  function GetDocumentUploadById(id: string, documents: seq<DocumentUpload>): (r: Option<DocumentUpload>)
    ensures r.None? <==> forall i :: 0 <= i < |documents| ==> documents[i].id != id
    ensures r.Some? ==> r.value in documents && r.value.id == id
  {
    Find(documents, DocumentHasId(id))
  }

  /** The document found is the first one with the id. */
  lemma DocumentLookupFirst(id: string, documents: seq<DocumentUpload>, i: nat)
    requires i < |documents| && documents[i].id == id
    requires forall j :: 0 <= j < i ==> documents[j].id != id
    ensures GetDocumentUploadById(id, documents) == Some(documents[i])
  {
    FindFirst(documents, DocumentHasId(id), i);
  }

  /** `getProcessingRequestById`: a request with that id, or none. */
  function GetProcessingRequestById(id: string, requests: seq<PythonProcessingRequest>)
    : (r: Option<PythonProcessingRequest>)
    ensures r.None? <==> forall i :: 0 <= i < |requests| ==> requests[i].id != id
    ensures r.Some? ==> r.value in requests && r.value.id == id
  {
    Find(requests, RequestHasId(id))
  }

  /** The request found is the first one with the id. */
  lemma RequestLookupFirst(id: string, requests: seq<PythonProcessingRequest>, i: nat)
    requires i < |requests| && requests[i].id == id
    requires forall j :: 0 <= j < i ==> requests[j].id != id
    ensures GetProcessingRequestById(id, requests) == Some(requests[i])
  {
    FindFirst(requests, RequestHasId(id), i);
  }

  /** `getProcessingStatusById`: a status for that request, or none. */
  function GetProcessingStatusById(requestId: string, statuses: seq<ProcessingStatus>)
    : (r: Option<ProcessingStatus>)
    ensures r.None? <==> forall i :: 0 <= i < |statuses| ==> statuses[i].requestId != requestId
    ensures r.Some? ==> r.value in statuses && r.value.requestId == requestId
  {
    Find(statuses, StatusHasRequestId(requestId))
  }

  /** The status found is the first one for the request. */
  lemma StatusLookupFirst(requestId: string, statuses: seq<ProcessingStatus>, i: nat)
    requires i < |statuses| && statuses[i].requestId == requestId
    requires forall j :: 0 <= j < i ==> statuses[j].requestId != requestId
    ensures GetProcessingStatusById(requestId, statuses) == Some(statuses[i])
  {
    FindFirst(statuses, StatusHasRequestId(requestId), i);
  }

  // ---- filters ----

  function DocumentHasStatus(status: string): DocumentUpload -> bool {
    (doc: DocumentUpload) => doc.status == status
  }

  function RequestHasStatus(status: string): PythonProcessingRequest -> bool {
    (req: PythonProcessingRequest) => req.status == status
  }

  /** `getDocumentsByStatus`: exactly the documents with that status, each as often as it occurs, in their order. */
  function GetDocumentsByStatus(status: string, documents: seq<DocumentUpload>): (r: seq<DocumentUpload>)
    ensures forall d :: d in r <==> d in documents && d.status == status
    ensures forall d :: multiset(r)[d] == if d.status == status then multiset(documents)[d] else 0
    ensures IsSubsequence(r, documents)
  {
    FilterMembers(documents, DocumentHasStatus(status));
    FilterMultiset(documents, DocumentHasStatus(status));
    FilterIsSubsequence(documents, DocumentHasStatus(status));
    Filter(documents, DocumentHasStatus(status))
  }

  /** `getProcessingRequestsByStatus`: exactly the requests with that status, each as often as it occurs, in their order. */
  function GetProcessingRequestsByStatus(status: string, requests: seq<PythonProcessingRequest>)
    : (r: seq<PythonProcessingRequest>)
    ensures forall q :: q in r <==> q in requests && q.status == status
    ensures forall q :: multiset(r)[q] == if q.status == status then multiset(requests)[q] else 0
    ensures IsSubsequence(r, requests)
  {
    FilterMembers(requests, RequestHasStatus(status));
    FilterMultiset(requests, RequestHasStatus(status));
    FilterIsSubsequence(requests, RequestHasStatus(status));
    Filter(requests, RequestHasStatus(status))
  }

  /** `getProcessingRequestsByOrganization`: exactly the requests of that organization, each as often as it occurs, in their order. */
  function GetProcessingRequestsByOrganization(organization: string, requests: seq<PythonProcessingRequest>)
    : (r: seq<PythonProcessingRequest>)
    ensures forall q :: q in r <==> q in requests && q.organization == organization
    ensures forall q :: multiset(r)[q] == if q.organization == organization then multiset(requests)[q] else 0
    ensures IsSubsequence(r, requests)
  {
    var p := (req: PythonProcessingRequest) => req.organization == organization;
    FilterMembers(requests, p);
    FilterMultiset(requests, p);
    FilterIsSubsequence(requests, p);
    Filter(requests, p)
  }

  /** `getDocumentsByFileType`: exactly the documents of that file type, each as often as it occurs, in their order. */
  function GetDocumentsByFileType(fileType: string, documents: seq<DocumentUpload>): (r: seq<DocumentUpload>)
    ensures forall d :: d in r <==> d in documents && d.fileType == fileType
    ensures forall d :: multiset(r)[d] == if d.fileType == fileType then multiset(documents)[d] else 0
    ensures IsSubsequence(r, documents)
  {
    var p := (doc: DocumentUpload) => doc.fileType == fileType;
    FilterMembers(documents, p);
    FilterMultiset(documents, p);
    FilterIsSubsequence(documents, p);
    Filter(documents, p)
  }

  /** `getCompletedRequests`: the status filter with `completed`. */
  function GetCompletedRequests(requests: seq<PythonProcessingRequest>): (r: seq<PythonProcessingRequest>)
    ensures r == GetProcessingRequestsByStatus("completed", requests)
  {
    var p := (req: PythonProcessingRequest) => req.status == "completed";
    FilterExtensional(requests, p, RequestHasStatus("completed"));
    Filter(requests, p)
  }

  /** `getPendingRequests`: the status filter with `pending`. */
  function GetPendingRequests(requests: seq<PythonProcessingRequest>): (r: seq<PythonProcessingRequest>)
    ensures r == GetProcessingRequestsByStatus("pending", requests)
  {
    var p := (req: PythonProcessingRequest) => req.status == "pending";
    FilterExtensional(requests, p, RequestHasStatus("pending"));
    Filter(requests, p)
  }

  /** `getProcessingRequests`: the status filter with `processing`. */
  function GetProcessingRequests(requests: seq<PythonProcessingRequest>): (r: seq<PythonProcessingRequest>)
    ensures r == GetProcessingRequestsByStatus("processing", requests)
  {
    var p := (req: PythonProcessingRequest) => req.status == "processing";
    FilterExtensional(requests, p, RequestHasStatus("processing"));
    Filter(requests, p)
  }

  /** `getFailedRequests`: the status filter with `failed`. */
  function GetFailedRequests(requests: seq<PythonProcessingRequest>): (r: seq<PythonProcessingRequest>)
    ensures r == GetProcessingRequestsByStatus("failed", requests)
  {
    var p := (req: PythonProcessingRequest) => req.status == "failed";
    FilterExtensional(requests, p, RequestHasStatus("failed"));
    Filter(requests, p)
  }

  // ---- totals and averages ----

  /** `req.pythonResponse?.processingTime || 0`. */
  function ProcessingTimeOf(req: PythonProcessingRequest): int {
    if req.pythonResponse.Some? then req.pythonResponse.value.processingTime else 0
  }

  /** `req.pythonResponse?.processingTime` is truthy: there is a response and its time is not zero. */
  predicate HasProcessingTime(req: PythonProcessingRequest) {
    ProcessingTimeOf(req) != 0
  }

  /** The requests whose processing time is truthy, each as often as it occurs, in their order. */
  function TimedRequests(requests: seq<PythonProcessingRequest>): (r: seq<PythonProcessingRequest>)
    ensures forall q :: q in r <==> q in requests && HasProcessingTime(q)
    ensures forall q :: multiset(r)[q] == if HasProcessingTime(q) then multiset(requests)[q] else 0
    ensures IsSubsequence(r, requests)
  {
    FilterMembers(requests, HasProcessingTime);
    FilterMultiset(requests, HasProcessingTime);
    FilterIsSubsequence(requests, HasProcessingTime);
    Filter(requests, HasProcessingTime)
  }

  /**
   * `getTotalProcessingTime`: the times of the requests that carry one,
   * added up; dropping the others changes nothing, so it is the sum of
   * every request's time, absent ones counted as zero.
   */
  function GetTotalProcessingTime(requests: seq<PythonProcessingRequest>): (r: int)
    ensures r == Sum(requests, ProcessingTimeOf)
  {
    SumOverFilter(requests, HasProcessingTime, ProcessingTimeOf);
    Sum(TimedRequests(requests), ProcessingTimeOf)
  }

  /**
   * `getAverageProcessingTime`: zero when no request carries a time,
   * otherwise the total over the number of requests that do.
   */
  function GetAverageProcessingTime(requests: seq<PythonProcessingRequest>): (r: real)
    ensures TimedRequests(requests) == [] ==> r == 0.0
    ensures TimedRequests(requests) != [] ==>
      r * (|TimedRequests(requests)| as real) == GetTotalProcessingTime(requests) as real
  {
    var timed := TimedRequests(requests);
    if |timed| == 0 then 0.0
    else GetTotalProcessingTime(requests) as real / |timed| as real
  }

  /** With no negative time recorded, the total and the average are never negative. */
  lemma ProcessingTimesNonNegative(requests: seq<PythonProcessingRequest>)
    requires forall q :: q in requests ==> ProcessingTimeOf(q) >= 0
    ensures GetTotalProcessingTime(requests) >= 0
    ensures GetAverageProcessingTime(requests) >= 0.0
  {
    SumNonNegative(requests, ProcessingTimeOf);
  }

  function FileSizeOf(doc: DocumentUpload): int {
    doc.fileSize
  }

  /** `getTotalFileSize`: the sizes added up, never negative. */
  function GetTotalFileSize(documents: seq<DocumentUpload>): (r: int)
    ensures r >= 0
    ensures forall d :: d in documents ==> d.fileSize <= r
  {
    SumNonNegative(documents, FileSizeOf);
    SizeBoundsTotal(documents);
    Sum(documents, FileSizeOf)
  }

  /** Every size is at most the total of all sizes. */
  lemma {:induction false} SizeBoundsTotal(documents: seq<DocumentUpload>)
    ensures forall d :: d in documents ==> d.fileSize <= Sum(documents, FileSizeOf)
    decreases |documents|
  {
    if documents != [] {
      SizeBoundsTotal(documents[1..]);
      SumNonNegative(documents[1..], FileSizeOf);
      assert forall d :: d in documents ==> d == documents[0] || d in documents[1..];
    }
  }

  /** `getAverageFileSize`: zero for no documents, otherwise the total over their number. */
  function GetAverageFileSize(documents: seq<DocumentUpload>): (r: real)
    ensures documents == [] ==> r == 0.0
    ensures documents != [] ==> r * (|documents| as real) == GetTotalFileSize(documents) as real
    ensures r >= 0.0
  {
    if |documents| == 0 then 0.0
    else GetTotalFileSize(documents) as real / |documents| as real
  }

  /** A total over two lists of documents is the sum of their totals. */
  lemma TotalFileSizeAppend(a: seq<DocumentUpload>, b: seq<DocumentUpload>)
    ensures GetTotalFileSize(a + b) == GetTotalFileSize(a) + GetTotalFileSize(b)
  {
    SumAppend(a, b, FileSizeOf);
  }
}
