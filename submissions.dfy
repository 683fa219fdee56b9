/**
 * The `submissions` record as the admin dashboard types it
 * (`src/app/admin/page.tsx`): a status is one of exactly three values.
 */
module Submissions {
  import opened Wrappers

  datatype Status = Pending | Approved | Rejected

  /** The status as stored and sent: 'pending', 'approved' or 'rejected'. */
  function StatusName(s: Status): (name: string)
    ensures name in {"pending", "approved", "rejected"}
    ensures s == Pending <==> name == "pending"
    ensures s == Approved <==> name == "approved"
  {
    match s
    case Pending => "pending"
    case Approved => "approved"
    case Rejected => "rejected"
  }

  datatype Submission = Submission(
    id: string,
    twitterUsername: string,
    walletAddress: string,
    tweetUrl: string,
    status: Status,
    adminNote: Option<string>,
    createdAt: string)
}
