/** The names of tenant queues, `<base>@<tenant>` (packages/events/src/tenantQueues.ts:34-58). */
module TenantQueueNames {
  import opened Basics
  import opened Wrappers

  predicate IsTenantId(s: string) {
    && 1 <= |s| <= 64
    && (IsLower(s[0]) || IsUpper(s[0]) || IsDigit(s[0]))
    && forall c | c in s[1..] :: IsLower(c) || IsUpper(c) || IsDigit(c) || c == '_' || c == '-'
  }

  predicate IsBase(s: string) {
    && |s| >= 1 && IsLower(s[0])
    && forall c | c in s[1..] :: IsLower(c) || IsDigit(c) || c == '-'
  }

  datatype QueueOwner = QueueOwner(base: string, tenantId: string)

  /** `None` is the thrown refusal of a malformed base or tenant. */
  function TenantQueueName(base: string, tenantId: string): Option<string> {
    if IsBase(base) && IsTenantId(tenantId) then Some(base + "@" + tenantId) else None
  }

  /** The position of the first `@` from `i`, or the length. */
  function IndexOfAt(s: string, i: nat): (r: nat)
    requires i <= |s|
    ensures i <= r <= |s| && (r < |s| ==> s[r] == '@') && forall k | i <= k < r :: s[k] != '@'
    decreases |s| - i
  {
    if i == |s| || s[i] == '@' then i else IndexOfAt(s, i + 1)
  }

  function SplitTenantQueueName(name: string): Option<QueueOwner> {
    var at := IndexOfAt(name, 0);
    if at == 0 || at == |name| then None else
      var base, tenantId := name[..at], name[at + 1..];
      if IsBase(base) && IsTenantId(tenantId) then Some(QueueOwner(base, tenantId)) else None
  }

  /** The name of a queue says exactly whose it is: splitting inverts naming, in both directions, so two owners never
      share a queue and no other name passes for a tenant queue. */
  lemma SplitInvertsName(name: string, base: string, tenantId: string)
    ensures SplitTenantQueueName(name) == Some(QueueOwner(base, tenantId))
       <==> TenantQueueName(base, tenantId) == Some(name)
  {
    var at := IndexOfAt(name, 0);
    assert 0 < at < |name| ==> name == name[..at] + "@" + name[at + 1..];
    if TenantQueueName(base, tenantId) == Some(name) {
      assert name[|base|] == '@';
      forall k | 0 <= k < |base| ensures name[k] != '@' {
        assert k > 0 ==> base[k] in base[1..];
      }
      assert at == |base|;
      assert name[..at] == base && name[at + 1..] == tenantId;
    }
  }
}
