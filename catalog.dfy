/**
 * The host catalogue: the records the configuration provider produced, in
 * file order. Only `host` takes part in searching, completion and launch.
 */
module Catalog {

  /** One `Host` entry of the SSH configuration, its options already resolved. */
  datatype SshItem = SshItem(host: string, user: string, target: string, port: string, jump: string)

  /** The host names of `store`, in catalogue order. */
  function Hosts(store: seq<SshItem>): (r: seq<string>)
    ensures |r| == |store|
    ensures forall k :: 0 <= k < |store| ==> r[k] == store[k].host
  {
    if store == [] then [] else [store[0].host] + Hosts(store[1..])
  }
}
