/** The two disk limiters: each sets an NTFS quota on a container volume through the
 *  `SetQuota` entry of `quota.dll`. The image plugin's limiter adds a fixed overhead to the
 *  requested size; the runtime's limiter refuses sizes below a minimum. A size of zero means
 *  no limit for both. */
module DiskLimit {
  import opened Wrappers
  import opened Errors
  import opened Text
  import Words

  const DISK_QUOTA_OVERHEAD: nat := 6 * 1024
  const MINIMUM_DISK_QUOTA: nat := 1500

  /** What the operating system answers: locating the running executable (next to which the
   *  DLL lives), the raw return value of `SetQuota` for a volume and a size, and the last
   *  error reported with it. */
  datatype Quota = Quota(
    executable: Outcome<Error>,
    setQuota: (string, nat) -> int,
    lastError: Error)

  /** What a limiter returned, and the size it handed to `SetQuota` if it got that far. */
  datatype Limited = Limited(result: Outcome<Error>, quota: Option<nat>)

  /** `syscall.UTF16PtrFromString`: a path holding a NUL character cannot be passed on. */
  function Utf16(path: string): (r: Outcome<Error>)
    ensures r.Pass? <==> forall i :: 0 <= i < |path| ==> path[i] != '\0'
  {
    if '\0' in path then Fail(Msg("invalid argument")) else Pass
  }

  /** The part both limiters share: find the DLL, convert the path, call `SetQuota`; the low
   *  32 bits of its return value, read as a signed number, are the status. */
  function SetQuota(volumePath: string, size: nat, q: Quota): (r: Limited)
    ensures r.quota.Some? <==> q.executable.Pass? && Utf16(volumePath).Pass?
    ensures r.quota.Some? ==> r.quota.value == size
    ensures q.executable.Fail? ==> r.result == q.executable
    ensures r.quota.Some? ==>
              (r.result.Pass? <==> Words.Int32(q.setQuota(volumePath, size)) == 0)
              && (r.result.Fail? ==> r.result.error == Msg("error setting quota: " + Message(q.lastError) + "\n"))
  {
    if q.executable.Fail? then Limited(q.executable, None)
    else
      var converted := Utf16(volumePath);
      if converted.Fail? then Limited(converted, None)
      else if Words.Int32(q.setQuota(volumePath, size)) != 0 then
        Limited(Fail(Msg("error setting quota: " + Message(q.lastError) + "\n")), Some(size))
      else Limited(Pass, Some(size))
  }

  /** A status whose low 32 bits are zero is a success, whatever the upper bits hold. */
  lemma StatusIsLowWord(volumePath: string, size: nat, q: Quota)
    requires q.executable.Pass? && Utf16(volumePath).Pass?
    requires q.setQuota(volumePath, size) == Words.TWO_32
    ensures SetQuota(volumePath, size, q).result.Pass?
  {
  }

  // ---------------------------------------------------------------------------------------
  // The image plugin's limiter
  // ---------------------------------------------------------------------------------------

  /** The image plugin's `SetDiskLimit` as written: the overhead is added in unsigned 64-bit
   *  arithmetic, so a size within the overhead of 2^64 wraps to a small quota. */
  function ImageSetDiskLimitAsWritten(volumePath: string, size: nat, q: Quota): (r: Limited)
    requires size < Words.TWO_64
    ensures size == 0 ==> r == Limited(Pass, None)
    ensures size != 0 ==> r == SetQuota(volumePath, Words.Uint64(size + DISK_QUOTA_OVERHEAD), q)
  {
    if size == 0 then Limited(Pass, None)
    else SetQuota(volumePath, Words.Uint64(size + DISK_QUOTA_OVERHEAD), q)
  }

  /** The largest requests make the limiter as written set a quota smaller than the request,
   *  indeed smaller than the overhead alone. */
  lemma {:induction false} OverheadWraps(volumePath: string, size: nat, q: Quota)
    requires Words.TWO_64 - DISK_QUOTA_OVERHEAD <= size < Words.TWO_64
    requires q.executable.Pass? && Utf16(volumePath).Pass?
    ensures ImageSetDiskLimitAsWritten(volumePath, size, q).quota == Some(size + DISK_QUOTA_OVERHEAD - Words.TWO_64)
    ensures ImageSetDiskLimitAsWritten(volumePath, size, q).quota.value < DISK_QUOTA_OVERHEAD
  {
    var x := size + DISK_QUOTA_OVERHEAD;
    var w := Words.Uint64(x);
    assert Words.TWO_64 <= x < 2 * Words.TWO_64;
    assert (x - w) % Words.TWO_64 == 0;
    assert x - w == Words.TWO_64;
  }

  /** The image plugin's `SetDiskLimit` with the overhead added without wrapping: the quota is
   *  the request plus the overhead, held at the largest 64-bit value. */
  function ImageSetDiskLimit(volumePath: string, size: nat, q: Quota): (r: Limited)
    requires size < Words.TWO_64
    ensures size == 0 <==> r.quota.None? && r.result.Pass?
    ensures size == 0 ==> r == Limited(Pass, None)
    ensures r.quota.Some? ==> size <= r.quota.value < Words.TWO_64
    ensures r.quota.Some? && size + DISK_QUOTA_OVERHEAD < Words.TWO_64 ==> r.quota.value == size + DISK_QUOTA_OVERHEAD
    ensures size != 0 ==> (r.quota.Some? <==> q.executable.Pass? && Utf16(volumePath).Pass?)
  {
    if size == 0 then Limited(Pass, None)
    else
      var total := size + DISK_QUOTA_OVERHEAD;
      SetQuota(volumePath, if total < Words.TWO_64 then total else Words.TWO_64 - 1, q)
  }

  /** Below the wrap the two definitions agree. */
  lemma ImageLimitAgreesBelowWrap(volumePath: string, size: nat, q: Quota)
    requires size + DISK_QUOTA_OVERHEAD < Words.TWO_64
    ensures ImageSetDiskLimit(volumePath, size, q) == ImageSetDiskLimitAsWritten(volumePath, size, q)
  {
  }

  // ---------------------------------------------------------------------------------------
  // The runtime's limiter
  // ---------------------------------------------------------------------------------------

  /** The error for a request below the minimum (the message's spelling is the program's). */
  function BelowMinimum(size: nat): Error
  {
    Msg("requested disk quota " + Decimal(size) + " less than minumum (" + Decimal(MINIMUM_DISK_QUOTA) + " bytes)")
  }

  /** The runtime's `SetDiskLimit`: zero means no limit, a request below the minimum is
   *  refused before any system call, and any other request is passed on unchanged. */
  function VolumeSetDiskLimit(volumePath: string, size: nat, q: Quota): (r: Limited)
    requires size < Words.TWO_64
    ensures size == 0 ==> r == Limited(Pass, None)
    ensures 0 < size < MINIMUM_DISK_QUOTA ==> r == Limited(Fail(BelowMinimum(size)), None)
    ensures r.quota.Some? ==> r.quota.value == size && MINIMUM_DISK_QUOTA <= size
    ensures MINIMUM_DISK_QUOTA <= size ==> (r.quota.Some? <==> q.executable.Pass? && Utf16(volumePath).Pass?)
  {
    if size == 0 then Limited(Pass, None)
    else if size < MINIMUM_DISK_QUOTA then Limited(Fail(BelowMinimum(size)), None)
    else SetQuota(volumePath, size, q)
  }

  /** Wherever both limiters reach the system, the image plugin's asks for more room than the
   *  runtime's: the runtime's is the request itself, the image plugin's adds the overhead
   *  (held at the largest 64-bit value). */
  lemma ImageLimitAboveVolumeLimit(volumePath: string, size: nat, q: Quota)
    requires size < Words.TWO_64
    requires VolumeSetDiskLimit(volumePath, size, q).quota.Some?
    ensures ImageSetDiskLimit(volumePath, size, q).quota.Some?
    ensures VolumeSetDiskLimit(volumePath, size, q).quota.value <= ImageSetDiskLimit(volumePath, size, q).quota.value
    ensures size < Words.TWO_64 - 1 ==> VolumeSetDiskLimit(volumePath, size, q).quota.value < ImageSetDiskLimit(volumePath, size, q).quota.value
  {
  }
}
