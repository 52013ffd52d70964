/** Option and Result values, and the ways the two scripts can fail.

    Every failure of the Python scripts is an uncaught exception that ends the
    run; the model returns it as an `Err` instead. */
module Results {

  datatype Option<+T> = None | Some(value: T)

  /** The exception kinds the scripts can raise on the paths that are modelled. */
  datatype Failure =
    | ShapeMismatch     // KeyError, IndexError or TypeError while walking a document
    | NoDomainField     // `split('=')` of the VIRTUAL_HOST entry has no second field
    | MalformedRange    // `ipaddress.IPv4Network` rejects a line of the range file
    | HostBitsSet       // `ipaddress.IPv4Network` (strict) rejects a range with host bits set
    | MissingRangeFile  // `open` of cloudflare_ip_list.txt fails

  datatype Result<+T> = Ok(value: T) | Err(error: Failure)
}
