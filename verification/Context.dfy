/**
 The objects of a running process that a reload touches.
 */
module Context {
  import opened Options
  import S = Status
  import K = Keystore

  class Context {
    const status: S.StatusHandler
    const cert: K.KeystoreCertificate

    constructor (status: S.StatusHandler, cert: K.KeystoreCertificate)
      ensures this.status == status && this.cert == cert
    {
      this.status := status;
      this.cert := cert;
    }

    /** An uninterrupted reload: the status ends up listening whether or not the certificate could be loaded, and
        a failure leaves the certificate that is served as it was. */
    method Reload(crypto: K.Crypto, contents: seq<Option<seq<K.Block>>>, ghost id: nat)
      requires |contents| == |cert.paths| && K.Sound(crypto)
      requires S.Enabled(status.View(), S.Begin(id))
      modifies status, cert`cached
      ensures status.listening && !status.reloading && id !in status.active
      ensures if exists c :: K.Loads(crypto, contents, c)
              then cert.cached.Some? && K.Loads(crypto, contents, cert.cached.value)
              else cert.cached == old(cert.cached)
    {
      status.Reloading(id);
      var ok := cert.Reload(crypto, contents);
      status.Listening(S.Finish(id));
    }
  }
}
